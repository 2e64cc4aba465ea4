# Syllva: a verified model of the core protocols

This project models eight parts of Syllva in Dafny and proves what each of them is for. Nothing in it
calls the original program; every file stands for the source lines named in the table below.

| component | files | what is proved |
|---|---|---|
| Human-Proof gate | `Gate`, `GateInvariant`, `GateRuns`, `GateBinding`, `GateAnswers`, `GateService` | over every run: at most one committed row per nonce, one pending nonce per session, terminal answers kept, cooldowns monotone and respected; a confirm writes exactly to the version that was shown; every answer exactly |
| canonical JSON and MAC messages | `CanonicalJson`, `CanonicalOrder`, `CanonicalText`, `MacMessage` | a reader undoes the printer, the text is that of the one tree that depicts the value, equal texts mean equal requests, exactly when dict order matters at any depth, the Python and Rust messages agree and are injective, each exactly below 2^32 bytes |
| start and loss of the Core | `CoreLife` | over every interleaving: the callback runs at most once, never after an error or a shutdown, a lost Core is reported exactly once, a start succeeds exactly when it accepted first, no deadlock |
| Canvas credential | `CanvasCredential` | with a crash or keychain failure between any two steps: no orphaned keychain entry, SET means the accepted token, recovery finishes, one-to-one course links, every answer exactly |
| ephemeral store and locators | `EphemeralStore`, `Capabilities`, `Locators`, `Decimal` | exact id index, one-shot handles that expire on time, exact authorization, parser and printer are inverse, containment is inclusion |
| edit-distance guard | `EditDistance` | the two-row program computes the length of a shortest edit script; the guard rejects exactly the near misses |
| LMS snapshot, announcements, reservation | `Snapshot`, `SnapshotOrder`, `SnapshotDocument`, `SnapshotAcceptance`, `SnapshotRefusals`, `Announcements`, `AnnouncementMemory`, `Reservations` | exactly which documents are accepted and as what, the code of every refusal, order independence, revalidation is the identity, nothing forgotten over any number of runs, crash-persistent exclusion |
| download and ingestion | `Download`, `DownloadTrace`, `Ingestion`, `IngestionRows` | request and token confinement against any server, every request and the end of the chain exactly; version chains and idempotence over any run, every new row exactly |

Code that changes objects in place (the gate service, the stores, the credential, the runtime lock, the
connection, the library tables) is written as classes whose methods are proved against pure transition
functions; the run theorems are about those functions. Concurrency is modelled as interleavings of atomic
steps, a crash as stopping after any step. `Wrappers` holds the usual option and result types,
`LeastElement` a fact about sets of integers.

SHA-256, HMAC, NFC, the cleaning of labels, case folding and the URL library are parameters of which
only the laws named in the lemmas are used. Clock readings, fresh ids, random tokens and the answers of
servers, keychains and databases are arbitrary inputs.

## What turned out differently from the documentation

- `src/syllva/gate/canonical.py:1-5` promises one text per value. `dumps` depends on the insertion order
  of a dict when two of its keys have the same NFC form but different values: `CanonicalOrder.OrderCanMatter`
  is such a dict for any two spellings that NFC identifies. `CanonicalOrder.OrderIrrelevantEverywhereIff`
  is the exact condition: the text of a value is the same for every order of its dicts, at every depth, iff
  the value is refused or no dict anywhere inside it has two such entries. `Gate.RequestIsSafe` shows that
  the objects which the gate builds and digests meet it.
- The Rust feed casts a length to 32 bits and wraps, where the Python expression raises.
  `MacMessage.PythonAgreesWithRust` is the exact condition; `MacMessage.TruncationCollides` shows two
  inputs with one message beyond it.
- Authorization without a selected entry is not closed under narrowing the request:
  `Capabilities.GrantMayNotNarrow` is an instance, `Capabilities.GrantNarrowsIff` the exact condition.
  With a selected entry it is closed.
- The gate keeps an expired nonce for its retention time counted from its deadline, not from the moment
  the expiry is noticed (`src/syllva/gate/service.py:231-236`); `GateRuns.EndedIsAnswered` is stated that way.

## Model

| member | source | states |
|---|---|---|
| CanonicalJson.ReadUndoesWrite | src/syllva/gate/canonical.py:35-36 | a reader recovers the normalized value from its text, whatever follows it (separators, sorting, escapes and keywords included) |
| CanonicalJson.WriteInjective | src/syllva/gate/canonical.py:35-36 | different normalized values have different texts |
| CanonicalJson.LessExactly | src/syllva/gate/canonical.py:36 | keys are compared in code point order: at the first difference the smaller character, or the shorter key, comes first |
| CanonicalJson.EscapeIsShortest | src/syllva/gate/canonical.py:36 | of all the spellings that a reader takes for a character the shortest is written |
| CanonicalText.DumpsExactly | src/syllva/gate/canonical.py:14-36 | a value has a text iff no float, foreign object or non-string key is inside it; the text is that of the only tree that depicts it: strings in NFC, members ascending in code point order, each with the value of the last entry for its name |
| CanonicalText.TextReadsAs | src/syllva/gate/canonical.py:14-36 | a reader of the text gets that tree |
| CanonicalOrder.DumpsDeterminesCanonical | src/syllva/gate/canonical.py:14-36 | two accepted values have the same text iff they have the same canonical form, which CanonicalText.DumpsExactly describes |
| CanonicalOrder.OrderIrrelevantIff | src/syllva/gate/canonical.py:23-29 | permuting the entries of one dict, its values left as they are, never changes its text iff no two of those entries share an NFC key with different values |
| CanonicalOrder.OrderIrrelevantEverywhereIff | src/syllva/gate/canonical.py:14-36 | reordering the dicts of a value at every depth never changes its text iff it is refused or no dict at any depth has two entries that share an NFC key with different normalized values |
| CanonicalOrder.RefusedInEveryOrder | src/syllva/gate/canonical.py:19-32 | whether a dict is refused never depends on the order of its entries |
| CanonicalOrder.RefusedAlike | src/syllva/gate/canonical.py:19-32 | whether a value is refused never depends on the order of the dicts inside it, at any depth |
| CanonicalOrder.OrderCanMatter | src/syllva/gate/canonical.py:24-29 | for every NFC and any two spellings that it identifies, a dict of two entries whose text depends on their order |
| CanonicalOrder.SameValueSameText | src/syllva/gate/canonical.py:14-36 | a value without such entries has one canonical form and one text, with its dicts at every depth in any order |
| CanonicalOrder.RequestTextDefined | src/syllva/gate/service.py:71-74 | the digested object has a text exactly when its params are acceptable |
| CanonicalOrder.RequestSafeIff | src/syllva/gate/service.py:71-74 | the digested object is independent of dict order exactly when its params are |
| CanonicalOrder.RequestTextBinds | src/syllva/gate/service.py:71-74 | equal digested texts iff action, target, params, summary and fingerprint are equal up to NFC |
| MacMessage.GateFeed | shell/proto/src/mac.rs:11-19 | the incremental feed of the Rust shell produces the framed message |
| MacMessage.RelayFeed | shell/proto/src/relay.rs:27-33 | the relay feed produces its framed message |
| MacMessage.GateLayout | shell/proto/src/mac.rs:9-19 | for parts shorter than 2^32 bytes the message is the name, then nonce and hash, each after four bytes that are its length with the most significant first |
| MacMessage.RelayLayout | shell/proto/src/relay.rs:24-33 | the same for the relay message and its one label |
| MacMessage.DomainNames | shell/proto/src/mac.rs:9 | the two names, zero byte included; that of the relay is shell/proto/src/relay.rs:24 |
| MacMessage.PythonAgreesWithRust | src/syllva/gate/mac.py:11-18 | the Python expression gives the Rust message exactly for parts shorter than 2^32 bytes |
| MacMessage.FramesInjective | shell/proto/src/mac.rs:14-17 | a sequence of length-prefixed parts can be split in only one way |
| MacMessage.GateMessageInjective | src/syllva/gate/mac.py:15-18 | for parts shorter than 2^32 bytes, equal gate messages come from the same nonce and the same request hash |
| MacMessage.GateIsNeverRelay | shell/proto/src/relay.rs:24-33 | no gate message is a relay message |
| MacMessage.TruncationCollides | shell/proto/src/mac.rs:15 | beyond 2^32 bytes one message stands for two pairs |
| MacMessage.InjectiveExactly | shell/proto/src/mac.rs:11-19 | messages of nonces and hashes of at most a given length determine them iff that length is below 2^32 |
| Gate.RequestHasText | src/syllva/gate/service.py:114-116 | the request hash of a material is always defined |
| Gate.RequestIsSafe | src/syllva/gate/service.py:71-74 | the object digested for a material has the same text whatever the order of its dicts |
| GateInvariant.SweepKeepsInv | src/syllva/gate/service.py:231-236 | expiry and pruning keep the whole invariant, no cooldown goes down although expiries carry their deadline, and what stays pending is inside its deadline |
| GateInvariant.FinishKeepsInv | src/syllva/gate/service.py:238-241 | ending a pending nonce, with or without its row in the log, keeps the invariant |
| GateInvariant.OpenKeepsInv | src/syllva/gate/service.py:117-129 | opening a nonce outside the cooldown of an idle session keeps the invariant |
| GateInvariant.ConfirmKeepsInv | src/syllva/gate/service.py:162-203 | so does every confirm, however the transaction ends |
| GateInvariant.StepKeepsInv | src/syllva/gate/service.py:98-203 | every call keeps the invariant, and history, log and cooldowns only grow |
| GateInvariant.RunKeepsInv | src/syllva/gate/service.py:98-247 | the same over every run |
| GateRuns.CommitGateWrites | src/syllva/state/v2/writer.py:252-321 | the transaction writes iff the target is there, unverified and still digests to the stored hash, and it is not broken off before; it reports success only after a write and a refusal only without one |
| GateRuns.LoggedIsRefused | src/syllva/state/v2/writer.py:303-307 | a nonce that is in the log already gets no second row, whatever else holds |
| GateRuns.ConfirmWritesExactly | src/syllva/gate/service.py:162-216 | a confirm writes iff the nonce is pending inside its deadline with matching window, live session and verifying MAC, and the target is unchanged; it writes one row and that material's flag |
| GateRuns.OtherwiseNotAttempted | src/syllva/gate/service.py:172-184 | in every other case the transaction is not even attempted: its fate makes no difference |
| GateRuns.ConfirmEnds | src/syllva/gate/service.py:162-203 | how one confirm ends a pending nonce: expired at its deadline, left alone on a wrong window, otherwise ended now and COMMITTED iff the write took effect and returned |
| GateRuns.BeginAcceptsExactly | src/syllva/gate/service.py:98-123 | a begin is accepted iff the request is well formed for a known unverified material, the session has no pending nonce inside its deadline and every refusal's cooldown is over |
| GateRuns.ViewShowsExactly | src/syllva/gate/service.py:135-149 | a view shows exactly a nonce that its window could still confirm, with the summary, target and hash it was begun with and the time left |
| GateRuns.DenyEnds | src/syllva/gate/service.py:151-160 | a deny ends a pending nonce now, or finds it expired at its deadline, and writes nothing |
| GateRuns.StepAppends | src/syllva/gate/service.py:182-203 | only a confirm appends to the log, one row, of its own nonce |
| GateRuns.CommittedAtMostOnce | src/syllva/gate/service.py:162-203 | over every run no nonce has two rows, not even after pruning; new rows are of nonces begun here with their hash; COMMITTED implies a row |
| GateRuns.WritesWhatWasShown | src/syllva/gate/service.py:114-129 | from begin through any run to a writing confirm: the material written has the summary and fingerprint that were shown, up to NFC, unless SHA-256 collides on the two texts |
| GateBinding.RequestTextIs | src/syllva/gate/service.py:71-74 | the text digested for a material, member by member and character by character, the sentence of the dialog (src/syllva/gate/summaries.py:41-43) included |
| GateBinding.FingerprintExactly | src/syllva/gate/fingerprints.py:19-20 | as long as the hash holds no separator, equal fingerprints mean equal hash, version and completeness |
| GateBinding.PendingIsAsBegun | src/syllva/gate/service.py:114-129 | after any run a nonce that is still pending has exactly the record that its begin made |
| GateBinding.WritesExactlyTheShownVersion | src/syllva/gate/service.py:162-216 | from begin through any run: a confirm writes iff the nonce is pending inside its deadline, window, session and MAC are those of the begin, and the material is unverified and of the very hash, version, completeness and sentence that were shown; one row and that flag |
| GateAnswers.BeginRefusesExactly | src/syllva/gate/service.py:98-123 | each refusal of begin, exactly |
| GateAnswers.ViewRefusesExactly | src/syllva/gate/service.py:218-229 | each reason for showing nothing, exactly |
| GateAnswers.ConfirmAnswersExactly | src/syllva/gate/service.py:162-203 | for a pending nonce inside its deadline: status, reason, superseded mark and answer in every case, and the record left behind |
| GateAnswers.RunKeepsMarked | src/syllva/gate/service.py:200-203 | over every run an answer is marked superseded iff it says TARGET_CHANGED |
| GateRuns.OnePendingPerSession | src/syllva/gate/service.py:117-129 | between calls a session has at most one PENDING record and nothing is COMMITTING |
| GateRuns.EndedIsKept | src/syllva/gate/service.py:231-236 | an ended nonce keeps its record, with its state and reason, for the retention time |
| GateRuns.EndedIsAnswered | src/syllva/gate/service.py:151-173 | after any further run a deny or confirm of an ended nonce answers with that state and reason and writes nothing, for at least the retention time |
| GateRuns.EndedIsForgotten | src/syllva/gate/service.py:231-236 | and once the retention time is over, after any run, the record is gone: deny and confirm answer UNKNOWN, a view shows nothing, nothing is written |
| GateRuns.CooldownIsOfLatestRefusal | src/syllva/gate/service.py:238-241 | a session has a cooldown iff it was refused, and its value is the latest refusal plus the cooldown |
| GateRuns.CooldownNeverDecreases | src/syllva/gate/service.py:231-241 | no cooldown value decreases from any point of a run to any later one |
| GateRuns.BeginOutsideCooldown | src/syllva/gate/service.py:117-123 | an accepted begin comes after every earlier nonce of the session has ended and every refusal's cooldown is over |
| GateRuns.NoncesAreSpaced | src/syllva/gate/service.py:117-123 | the same spacing between any two nonces of a session, at the end of any run |
| GateService.Database.CommitGate | src/syllva/state/v2/writer.py:283-321 | log row and verified flag change together or not at all, as the transition says |
| GateService.GateService.constructor | src/syllva/gate/service.py:78-94 | a new process starts without records or cooldowns, in the invariant |
| GateService.VisitOne | src/syllva/gate/service.py:231-236 | the loop body of the expiry, applied to one more record, gives the expiry of one more record, in any order of the records |
| GateService.GateService.FinishRecord | src/syllva/gate/service.py:238-241 | sets state, reason, time and cooldown of that record and nothing else |
| GateService.GateService.ExpireEach | src/syllva/gate/service.py:231-236 | the loop over the records expires and prunes exactly what is due |
| GateService.GateService.Begin | src/syllva/gate/service.py:98-131 | a begin is the transition of the model, refusals in their order, and keeps the invariant |
| GateService.GateService.View | src/syllva/gate/service.py:135-149 | shows a usable nonce or says why it is not, after expiry |
| GateService.GateService.Deny | src/syllva/gate/service.py:151-160 | a deny is the transition of the model and keeps the invariant |
| GateService.GateService.Confirm | src/syllva/gate/service.py:162-203 | a confirm, passing through COMMITTING, is the transition of the model and keeps the invariant |
| CoreLife.StepKeepsInv | shell/app/src/core.rs:94-200 | every atomic step of starter, reader or shutdown keeps the relation between life state, positions and the child mutex |
| CoreLife.CallbackAtMostOnce | shell/app/src/core.rs:119-161 | in every interleaving the lost-Core callback runs at most once and never when start returns an error |
| CoreLife.NoCallbackAfterShutdown | shell/app/src/core.rs:128-131 | once a shutdown stored STOPPING before the reader's load, no continuation runs the callback |
| CoreLife.ReportedExactlyOnce | shell/app/src/core.rs:124-161 | if the reader failed, nobody called shutdown and both threads returned, exactly one of error and callback happened |
| CoreLife.StartSucceedsExactly | shell/app/src/core.rs:124-161 | in every interleaving start has succeeded iff it accepted before the reader decided the loss, and has failed iff no good answer came or the loss came first |
| CoreLife.NoDeadlock | shell/app/src/core.rs:121-123 | in every reachable state some thread that has not returned can take a step |
| CoreLife.Progress | shell/app/src/core.rs:94-200 | names that step |
| CoreLife.RunsEnd | shell/app/src/core.rs:94-200 | the steps taken and still left never exceed those left at the start plus four per shutdown call |
| CoreLife.EveryMaximalRunReports | shell/app/src/core.rs:94-200 | every maximal interleaving has at most twelve steps plus four per shutdown call and ends with all threads returned and a lost Core reported exactly once |
| CanvasCredential.StepsKeepInv | src/syllva/canvas/credential.py:221-303 | whatever the keychain does, every durable state of every operation has entries only for the profile row, the accepted token under a SET row, and one-to-one links beside a row |
| CanvasCredential.StepsWriteOneStore | src/syllva/canvas/credential.py:221-336 | each durable step writes to the database or to the keychain, never to both, so every point of interruption is covered |
| CanvasCredential.ReachableInv | src/syllva/canvas/credential.py:221-336 | the same over every run with a crash after any step |
| CanvasCredential.RecoverCleans | src/syllva/canvas/credential.py:292-305 | recover leaves a SET state alone, cleans everything and says CLEANED, or keeps the PENDING row and links and says the deletion failed |
| CanvasCredential.RecoverFinishes | src/syllva/canvas/credential.py:292-305 | with a working keychain every crashed state ends clean or in its unchanged SET state, and a second recover has nothing to do |
| CanvasCredential.DropCleans | src/syllva/canvas/credential.py:259-278 | row and links go only after the entry is known to be gone |
| CanvasCredential.ConnectAnswers | src/syllva/canvas/credential.py:221-249 | OK means SET for that account with exactly that token; a refusal changes nothing; a failed keychain write leaves nothing or a PENDING row |
| CanvasCredential.ConnectExactly | src/syllva/canvas/credential.py:221-249 | each refusal exactly; otherwise OK iff the keychain took the token |
| CanvasCredential.StoredExactly | src/syllva/canvas/credential.py:251-257 | the keychain took it iff no call raised and the entry read back is the token |
| CanvasCredential.ErasedExactly | src/syllva/canvas/credential.py:259-266 | an entry is erased iff no call raised and one that was there was deleted |
| CanvasCredential.ConnectStoresOrigin | src/syllva/canvas/credential.py:224-243 | the row has the checked origin, or keeps the one it had |
| CanvasCredential.ConnectWorks | src/syllva/canvas/credential.py:221-249 | with a working keychain a verified token connects; if only the write failed, nothing is left |
| CanvasCredential.DroppingAnswersExactly | src/syllva/canvas/credential.py:280-305 | the answers of recover and forget are decided by the row and the erasing |
| CanvasCredential.ForgetAnswers | src/syllva/canvas/credential.py:280-290 | OK iff nothing is left, otherwise the row stays PENDING |
| CanvasCredential.ConnectionSurvives | src/syllva/canvas/credential.py:292-336 | recoveries and link changes never touch a connected account |
| CanvasCredential.LinkExactly | src/syllva/canvas/credential.py:317-336 | linking succeeds iff the profile exists, the id is one to 64 digits and the course is known and free; it changes that link only, each refusal has its code and restores the old link |
| CanvasCredential.CanvasCredentials.Store | src/syllva/canvas/credential.py:251-257 | passes through the durable states of the model; true iff the entry was read back exactly |
| CanvasCredential.CanvasCredentials.Erase | src/syllva/canvas/credential.py:259-266 | true iff the entry was seen to be gone |
| CanvasCredential.CanvasCredentials.Drop | src/syllva/canvas/credential.py:268-278 | erase first, then row and links in one transaction |
| CanvasCredential.CanvasCredentials.Connect | src/syllva/canvas/credential.py:221-249 | its trail of durable states is that of the model and all of them are valid |
| CanvasCredential.CanvasCredentials.Forget | src/syllva/canvas/credential.py:280-290 | the same for forget |
| CanvasCredential.CanvasCredentials.Recover | src/syllva/canvas/credential.py:292-305 | the same for recover |
| CanvasCredential.CanvasCredentials.LinkCourse | src/syllva/canvas/credential.py:317-336 | one transaction: the new links, or the old ones and a code |
| CanvasCredential.CanvasCredentials.Token | src/syllva/canvas/credential.py:197-211 | only ever returns the token accepted last, and does so whenever the row is SET and the keychain works |
| Locators.ParseUndoesIdText | src/syllva/domain/ids.py:74-109 | parsing the text of an entity id gives it back |
| Locators.IdTextUndoesParse | src/syllva/domain/ids.py:97-109 | an accepted id text is the text of its parse |
| Locators.ParseIdExactly | src/syllva/domain/ids.py:17-19 | which texts are entity ids, position by position, and what is read off them |
| Locators.ParseUndoesFormat | src/syllva/domain/models.py:114-123 | HH:MM:SS and seconds are inverse up to 99:59:59 |
| Locators.FormatUndoesParse | src/syllva/domain/models.py:188-193 | and every accepted timestamp is the text of its seconds |
| Locators.TimestampExactly | src/syllva/domain/models.py:114-123 | a text denotes so many seconds iff it is two digits each of hours, minutes and seconds in this order, the last two below sixty |
| Locators.ParseExactly | src/syllva/domain/models.py:153-185 | a text parses to a locator exactly when it is one of its spellings |
| Locators.ParseUndoesSerialize | src/syllva/domain/models.py:196-213 | parsing the serialized text of any valid locator returns it |
| Locators.SerializeIsFixedPoint | src/syllva/domain/models.py:153-213 | the canonical text of any accepted text parses to the same locator and serializes to itself |
| Locators.SerializeInjective | src/syllva/domain/models.py:196-213 | different valid locators have different texts |
| Locators.ContainedIsInclusion | src/syllva/domain/models.py:224-254 | containment holds iff every denoted page or second is denoted by the other |
| Locators.ContainedIsPartialOrder | src/syllva/domain/models.py:224-254 | reflexive, antisymmetric and transitive on valid locators |
| Capabilities.KeyInjective | src/syllva/ephemeral/models.py:112-115 | the string key of an allowed entry determines locator, hash and version |
| Capabilities.KeysAgree | src/syllva/ephemeral/models.py:93-115 | the tuple that authorization compares and the string that deduplication compares agree, and each determines the entry |
| Capabilities.Deduplicate | src/syllva/ephemeral/models.py:107-119 | keeps the first of each entry in order, so each canonical key occurs once |
| Capabilities.FirstOccurrencesKeepOrder | src/syllva/ephemeral/models.py:107-119 | what precedes in the result occurred first |
| Capabilities.SelectedGrantedIff | src/syllva/ephemeral/memory.py:225-277 | with an issued entry: granted iff scope agrees and that entry is in the capability, covers the request and is current |
| Capabilities.GrantedIff | src/syllva/ephemeral/memory.py:243-277 | without one: granted iff some range covers the request and every range that does is current |
| Capabilities.SelectedStaleIff | src/syllva/ephemeral/memory.py:261-277 | staleness of an issued entry is reported iff it covers the request and only its fingerprint is out of date |
| Capabilities.StaleIff | src/syllva/ephemeral/memory.py:268-277 | without one it is reported iff some covering range is out of date |
| Capabilities.SelectedGrantNarrows | src/syllva/ephemeral/memory.py:225-277 | a grant through an issued entry extends to every narrower request |
| Capabilities.GrantNarrowsIff | src/syllva/ephemeral/memory.py:243-277 | without one it does iff every further range around the narrower request is current |
| Capabilities.GrantMayNotNarrow | src/syllva/ephemeral/memory.py:243-277 | a capability where it does not |
| EphemeralStore.RunsAreSafe | src/syllva/ephemeral/memory.py:50-148 | over every run the id set is the disjoint union of the ids of the stored handles, and each handle resolves at most once, to its own candidate |
| EphemeralStore.ResolvesOnce | src/syllva/ephemeral/memory.py:112-148 | after a successful choice every later one on that handle is refused, however the run goes on |
| EphemeralStore.ResolvesExactly | src/syllva/ephemeral/memory.py:112-148 | a choice resolves iff its handle is stored, its deadline is ahead and it has that candidate; what each outcome leaves of the store |
| EphemeralStore.ResolvesToItsCandidate | src/syllva/ephemeral/memory.py:138-144 | the entity is that of the chosen candidate, field by field |
| EphemeralStore.NeverResolvesAfterExpiry | src/syllva/ephemeral/models.py:45-46 | over every run a handle never resolves at or after its deadline |
| EphemeralStore.ResolvesUntilThen | src/syllva/ephemeral/memory.py:112-148 | and before it, it does, through any run of calls that come in time and do not choose one of its candidates |
| EphemeralStore.TtlExactly | src/syllva/ephemeral/memory.py:308-313 | a lifetime is a finite non-negative number of seconds, cut at one day |
| EphemeralStore.BindableExactly | src/syllva/ephemeral/models.py:64-87 | an entry is bound iff its locator is one that the constructors accept and its version and hash are there |
| EphemeralStore.UnknownCandidateKeepsHandle | src/syllva/ephemeral/memory.py:126-137 | an unknown candidate leaves the handle usable |
| EphemeralStore.Store.ScopedId | src/syllva/ephemeral/memory.py:65-76 | the id is free and carries the prefix; a given id with both is kept |
| EphemeralStore.Store.CreateResolution | src/syllva/ephemeral/memory.py:50-100 | fails iff the ttl or a candidate is malformed and then restores the exact prior state; otherwise adds one handle with fresh disjoint ids |
| EphemeralStore.Store.GetResolution | src/syllva/ephemeral/memory.py:102-110 | a stored handle whose deadline is ahead, and nothing changes; otherwise nothing, and it is dropped |
| EphemeralStore.Store.ConsumeResolutionChoice | src/syllva/ephemeral/memory.py:112-148 | one choice is the transition of the model |
| EphemeralStore.Store.DropResolution | src/syllva/ephemeral/memory.py:294-301 | removes a handle together with exactly its ids |
| EphemeralStore.Store.CreateContextCapability | src/syllva/ephemeral/memory.py:150-185 | fails iff the ttl or an entry is malformed and then stores nothing; otherwise stores a fresh capability with the deduplicated entries |
| EphemeralStore.Store.AuthorizeLocator | src/syllva/ephemeral/memory.py:197-277 | decides for live capabilities only and drops expired ones |
| EphemeralStore.Store.PurgeExpired | src/syllva/ephemeral/memory.py:279-292 | removes exactly the expired handles and capabilities and counts them |
| EditDistance.DistanceIsShortest | src/syllva/config/loader.py:200-214 | the recurrence is the length of a shortest insert, delete, substitute script: one attains it and none is shorter |
| EditDistance.DistanceIsZeroOnlyOnEqual | src/syllva/config/loader.py:200-214 | zero iff equal |
| EditDistance.DistanceIsSymmetric | src/syllva/config/loader.py:200-214 | symmetric |
| EditDistance.TriangleInequality | src/syllva/config/loader.py:200-214 | satisfies the triangle inequality |
| EditDistance.Levenshtein | src/syllva/config/loader.py:200-214 | the in-place two-row program returns that distance for all strings |
| EditDistance.CheckTopLevelTypos | src/syllva/config/loader.py:217-234 | rejects the first key that is not the target but within two edits of it in lower case, and rejects nothing else |
| SnapshotOrder.OrderDoesNotMatter | scripts/knu_lms_sync.py:1421-1481 | documents that differ only in the order of assignments, announcements, modules or module items are both accepted with one payload and hash, or both rejected, also when another field is not the array it should be |
| SnapshotAcceptance.AcceptsExactly | scripts/knu_lms_sync.py:1421-1459 | which documents are accepted, over the raw fields: complete, only the five fields, nothing forbidden, the expected course, every element readable, ids, positions and items each once, the fixed positions if there are any |
| SnapshotAcceptance.AcceptedShows | scripts/knu_lms_sync.py:1421-1481 | what an accepted document becomes: the cleaned configuration, and the records that its elements show, by address in code point order or by position |
| SnapshotAcceptance.CourseShows | scripts/knu_lms_sync.py:1258-1281 | a raw course is read as this record iff its fields show it and the expected labels agree up to case |
| SnapshotAcceptance.AssignmentShows | scripts/knu_lms_sync.py:1284-1314 | the same for an assignment |
| SnapshotAcceptance.AnnouncementShows | scripts/knu_lms_sync.py:1317-1338 | the same for an announcement of this course |
| SnapshotAcceptance.ItemShows | scripts/knu_lms_sync.py:1341-1373 | the same for a module item |
| SnapshotAcceptance.ModuleReads | scripts/knu_lms_sync.py:1376-1418 | a module is read iff its flags, its count, its position and week name and every item are as required; its items by position and id |
| SnapshotAcceptance.ReadsBackExactly | scripts/knu_lms_sync.py:2607-2637 | a stored document is read back iff it is complete, its payload validates under the configuration that it states, and its hash is the payload's |
| SnapshotRefusals.DocumentRefused | scripts/knu_lms_sync.py:1421-1459 | the code of every refused document, over the raw fields: the envelope in the order of its checks, then the first list with a bad element, then what repeats |
| SnapshotRefusals.CourseRefused | scripts/knu_lms_sync.py:1258-1281 | the code of every refused course, or none |
| SnapshotRefusals.AssignmentRefused | scripts/knu_lms_sync.py:1284-1314 | the same for an assignment |
| SnapshotRefusals.AnnouncementRefused | scripts/knu_lms_sync.py:1317-1338 | the same for an announcement |
| SnapshotRefusals.ItemRefused | scripts/knu_lms_sync.py:1341-1373 | the same for a module item |
| SnapshotRefusals.ModuleRefused | scripts/knu_lms_sync.py:1376-1418 | the same for a module: its flags and count before its items, its positions after them |
| SnapshotRefusals.StoredRefused | scripts/knu_lms_sync.py:2607-2637 | which codes a stored document that is not read back can get, and when |
| SnapshotRefusals.WrittenUnder | scripts/knu_lms_sync.py:1229-1246 | the address that each record is written under, spelled out |
| SnapshotRefusals.WrittenOrigin | scripts/knu_lms_sync.py:1249-1255 | the origin, course, kind and id that it is written with |
| SnapshotOrder.SortSorts | scripts/knu_lms_sync.py:1460-1462 | the sorts put the same records in the order of their keys |
| SnapshotOrder.SortedUnique | scripts/knu_lms_sync.py:1444-1462 | with unique keys there is only one sorted list of given records |
| SnapshotOrder.CollectPermuted | scripts/knu_lms_sync.py:1441-1443 | validating a permuted list accepts iff the original is accepted, with permuted results |
| SnapshotOrder.AlikeValidated | scripts/knu_lms_sync.py:1376-1418 | a module with permuted items is accepted alike, with the same record up to equally ranked items |
| SnapshotOrder.SimilarEqual | scripts/knu_lms_sync.py:1455-1459 | the uniqueness of item urls makes those records equal |
| SnapshotOrder.ForbiddenIsRejected | scripts/knu_lms_sync.py:1218-1226 | the walk stops exactly the documents in which some path leads to a forbidden field name, and none of them is accepted |
| SnapshotOrder.ReorderedAllowed | scripts/knu_lms_sync.py:1218-1226 | forbidden fields are found regardless of order |
| SnapshotDocument.FlatIsGood | scripts/knu_lms_sync.py:1258-1373 | an accepted course, assignment, announcement or item has a positive id, cleaned labels and well-typed optional fields |
| SnapshotDocument.ModuleIsGood | scripts/knu_lms_sync.py:1376-1418 | an accepted module also obeys the position contract and has sorted good items |
| SnapshotDocument.FlatValidates | scripts/knu_lms_sync.py:1258-1373 | every course, assignment, announcement or item with cleaned labels is read back field by field from its written form |
| SnapshotDocument.ModuleValidates | scripts/knu_lms_sync.py:1376-1418 | so is every module with sorted good items |
| SnapshotDocument.AcceptedIsCanonical | scripts/knu_lms_sync.py:1421-1481 | an accepted payload is canonical under its own scope |
| SnapshotDocument.CanonicalValidates | scripts/knu_lms_sync.py:1421-1481 | a canonical payload validates to itself |
| SnapshotDocument.RevalidationIsIdentity | scripts/knu_lms_sync.py:2607-2637 | the document written for any accepted snapshot is read back with the same payload and hash |
| Announcements.Project | scripts/knu_lms_sync.py:2095-2154 | fails exactly as the prior state is malformed; otherwise lists the merged entries in key order |
| AnnouncementMemory.PriorExactly | scripts/knu_lms_sync.py:2103-2131 | which prior lists are read, over the raw fields of their entries, and as what |
| AnnouncementMemory.EntryRefused | scripts/knu_lms_sync.py:2103-2128 | the code of every refused entry, over its raw fields |
| AnnouncementMemory.PriorRefused | scripts/knu_lms_sync.py:2103-2131 | the first entry that cannot be read, or that repeats an address before it, decides the code |
| AnnouncementMemory.ProjectsExactly | scripts/knu_lms_sync.py:2095-2154 | the projection succeeds iff the prior state can be recalled, and then lists each announcement once, by address in code point order, with its record, day and window flag |
| Announcements.ReadAll | scripts/knu_lms_sync.py:2103-2131 | the loop over the prior state reads the list or reports its first error |
| Announcements.MergedAt | scripts/knu_lms_sync.py:2132-2153 | an announcement is in the merge iff it is current or remembered; which record, date and window flag it carries |
| Announcements.ProjectingAgainChangesNothing | scripts/knu_lms_sync.py:2095-2154 | projecting the same snapshot onto its own result changes nothing |
| Announcements.OutputIsValidPrior | scripts/knu_lms_sync.py:2103-2131 | the written entries pass the prior-state checks and read back as what was listed |
| Announcements.HistoryAccepted | scripts/knu_lms_sync.py:2095-2154 | what is remembered after any history passes the prior-state checks |
| Announcements.HistoryReadsBack | scripts/knu_lms_sync.py:2095-2154 | chaining the runs through what each one writes, none is refused, and what a run reads back is exactly the memory of the whole history before it |
| Announcements.RemembersLatest | scripts/knu_lms_sync.py:2132-2153 | after any number of runs an announcement is as the last snapshot listing it showed it, last seen that day |
| Announcements.RemembersOnlySeen | scripts/knu_lms_sync.py:2132-2153 | and only announcements that some snapshot listed are remembered |
| Reservations.StepKeepsInv | scripts/knu_lms_apply_lock.py:88-211 | every lock, read, write, close or crash keeps the relation between lock, handles, record and history |
| Reservations.OneHolder | scripts/knu_lms_apply_lock.py:100-101 | in every run at most one handle is live, and it holds the lock |
| Reservations.CompletesAtMostOnce | scripts/knu_lms_apply_lock.py:116-123 | each owner completes at most once, with its own scope, and the record says completed iff it did |
| Reservations.ReplacedOnlyAfterCompletion | scripts/knu_lms_apply_lock.py:102-110 | an active record is replaced only after it was completed |
| Reservations.CrashOrphans | scripts/knu_lms_apply_lock.py:102-104 | a crash with an active record leaves that record on disk with no live handle |
| Reservations.CrashedOwnerBlocks | scripts/knu_lms_apply_lock.py:102-104 | an orphaned record stays and no owner is issued until an operator completed exactly that owner and scope |
| Reservations.CrashBlocksUntilReconciled | scripts/knu_lms_apply_lock.py:102-104 | the same over every run from the start in which a handle crashes with an active record |
| Reservations.AdmittedExactly | scripts/knu_lms_apply_lock.py:88-177 | a reservation is granted iff lock and record are free, a guard opens iff it names the active record |
| Reservations.GuardUnblocks | scripts/knu_lms_apply_lock.py:147-198 | the guard that names a crashed record clears it, and a reservation is granted again |
| Reservations.CycleCompletes | scripts/knu_lms_apply_lock.py:88-128 | an undisturbed cycle from a free state runs through: issued, completed by its owner, everything free again |
| Reservations.PublishesExactly | scripts/knu_lms_apply_lock.py:104-114 | what the first durable write leaves, whether it returns or raises |
| Reservations.CompletesExactly | scripts/knu_lms_apply_lock.py:116-123 | the same for the completing write |
| Reservations.HexExactly | scripts/knu_lms_apply_lock.py:88-92 | which texts are hashes and owners: so many lower-case hex digits |
| Reservations.Reservation.Begin | scripts/knu_lms_apply_lock.py:88-114 | the refusals in order, and otherwise exactly the steps of the model, also when the write raises |
| Reservations.Reservation.Complete | scripts/knu_lms_apply_lock.py:116-123 | completes the own active record or refuses, also when the write raises |
| Reservations.Reservation.Close | scripts/knu_lms_apply_lock.py:125-128 | gives the lock back once |
| Reservations.ReconciliationGuard.Begin | scripts/knu_lms_apply_lock.py:147-177 | opens for exactly the named owner and scope |
| Reservations.ReconciliationGuard.Complete | scripts/knu_lms_apply_lock.py:184-198 | completes it with the operator's candidate |
| Reservations.ReconciliationApply | scripts/knu_lms_sync.py:652-678 | succeeds iff it was confirmed, the lock is free, the record is the named active one, both readings of record and evidence give the confirmed candidate and the write returns; the record is then completed with it, and the lock is free afterwards |
| Download.AgainstAnyServer | src/syllva/canvas/http.py:459-513 | whatever the server does: at most N + 1 requests in all, the token only to this origin for a target of this file that passed the allowlist, one allowed storage host after the first foreign hop |
| Download.SuccessIsExact | src/syllva/canvas/http.py:620-623 | success is the body of the last answer, of exactly the expected size, with a success status and in time |
| Download.HonestServer | src/syllva/canvas/http.py:459-513 | a server that serves the file, at once or behind one allowed redirect, succeeds with exactly those requests |
| Download.EndlessRedirects | src/syllva/canvas/http.py:478-493 | endless redirects to the same file get exactly N + 1 requests and a refusal |
| DownloadTrace.DownloadExactly | src/syllva/canvas/http.py:459-513 | the refusals before the first request; then the trace: the first request has path and query of the URL, each next one is what the redirect before it asks for (token to the same file on Canvas, none to storage), the chain stops when nothing is asked, or too much, or too late, and ends as the last answer says |
| Download.CanvasConnection.Fetch | src/syllva/canvas/http.py:515-550 | one request, counted and sent unless the deadline has passed, judged by status |
| Download.CanvasConnection.Foreign | src/syllva/canvas/http.py:495-513 | the storage loop sends the requests of the model and ends as it does |
| Download.CanvasConnection.Download | src/syllva/canvas/http.py:459-493 | the redirect loop sends the requests of the model and ends as it does |
| Ingestion.IngestKeepsInv | src/syllva/ingestion/local.py:72-137 | a new file keeps the shape of the tables, and only a taken source id can violate a constraint |
| Ingestion.RevisionKeepsInv | src/syllva/ingestion/local.py:140-198 | a revision keeps it, and no constraint is ever violated |
| Ingestion.RunKeepsInv | src/syllva/ingestion/local.py:72-198 | over every run versions are only appended |
| Ingestion.VersionChains | src/syllva/ingestion/local.py:60-198 | after any run: numbered 1..n, version k supersedes k - 1, hashes distinct per source, a blob row and exactly one reference per version |
| Ingestion.RepeatedIngestChangesNothing | src/syllva/ingestion/local.py:90-110 | ingesting the same bytes again, any time before their source is deleted, changes no row and reports the same version |
| Ingestion.RepeatedRevisionChangesNothing | src/syllva/ingestion/local.py:157-181 | repeating a revision changes no row, and older bytes are refused without changing one |
| IngestionRows.IngestExactly | src/syllva/ingestion/local.py:72-137 | each refusal, the duplicate that is reported, and otherwise the new rows, exactly |
| IngestionRows.RevisionExactly | src/syllva/ingestion/local.py:140-198 | the same for a revision of the one source of that id and its highest version |
| Ingestion.Library.RecordBlob | src/syllva/ingestion/local.py:60-62 | inserts the blob row if it is missing |
| Ingestion.Library.InsertVersion | src/syllva/ingestion/local.py:112-136 | inserts the version row and its one reference |
| Ingestion.Library.IngestNew | src/syllva/ingestion/local.py:72-137 | one transaction, as the model says, keeping the shape |
| Ingestion.Library.AddVersion | src/syllva/ingestion/local.py:140-198 | one transaction, as the model says, keeping the shape |

## Left out

- GateService.GateService.View: the label, source ids and hash prefixes that the dialog also shows, and the rounding to milliseconds.
- GateService.GateService.Begin: the material is read before the lock is taken, so what was read is an input; the nonce is any that was never used.
- GateBinding.WritesExactlyTheShownVersion: stored hashes are ASCII without the separator and completeness words are ASCII, as the ingestion writes them.
- Gate.RequestHasText: the other three gate actions are not wired in the source either.
- CanonicalJson.ReadUndoesWrite: texts are sequences of characters, so UTF-8 encoding and lone surrogates are not modelled.
- EphemeralStore.Store.CreateContextCapability: whether a mapping or tuple can be coerced into an entry is a flag of the input, which decides the refusal.
- SnapshotOrder.OrderDoesNotMatter: which error code a rejected document gets may depend on the order, and the codes of a bad configuration are one code here.
- Announcements.Project: numbers that Python holds equal across types (17 and 17.0 in a stored identity) are different values here.
- Reservations.ReconciliationApply: the evidence files are an input; reading them safely is not modelled.
- Reservations.Reservation.Begin: a corrupt record file and the checks on paths, owners and modes; the command loop `hold_cli` around the reservation.
- Download.CanvasConnection.Download: a transport without a `fetch` method, address resolution and pinning; the server is a fixed but arbitrary script of answers.
- Ingestion.RunKeepsInv: the garbage collection of blobs that no version references.
- CanvasCredential.CanvasCredentials.Connect: display names, timestamps and the audit log; a database exception is a crash at that point.
- CoreLife.NoDeadlock: a mutex poisoned by a panic, the pinger and the stderr drain.
- Operating-system locks, file permissions, TLS, sockets and DNS; a lock is held by at most one.
- The strength of SHA-256 and HMAC and the randomness of tokens.
- Unicode tables, date parsing and regular-expression engines; the few grammars needed are written out.
- Python's limit on the digits of an integer literal.
- The rest of `config/loader.py` and the configuration schema: independent field checks.
- The Notion projection plan and its write-back.
- The command-line programs, the documentation site, display text and dialog code.
