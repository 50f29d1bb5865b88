# Cliptown backend: a Dafny model of its protocols

This project models the three stateful cores of the Cliptown backend and proves what they
promise over every input and every run, with creates, settlements and step-up calls interleaved:

- the sync engine (`src/sync_protocol.rs`): a sequenced mutation log, one conflict winner per
  object, a bounded duplicate-suppression window, cursor-paged pulls and snapshots, together
  with the one-object abstract model that `src/bin/sync-model-check.rs` compares it with;
- the MemeBank transfer service (`src/memebank_routes.rs`, `src/memebank_transfer.rs` and the
  constraints in `schema/schema.sql`): create, acknowledge, cancel and list over two tables;
- the application-vault batch validator and one-time step-up authorisation (`src/app_vault.rs`
  and `consume_external_step_up` in `schema/schema.sql`).

`dafny verify dfyconfig.toml` checks the whole project.

## How the model is laid out

- `Text` (byte strings with Rust's order, machine integers), `Forms` (textual forms that Rust
  and SQL both describe), `Utf8` (tests on bytes against the characters they stand for).
- `SyncProtocol` states the pure rules; `SyncEngineObject.SyncEngine` is the engine as an object
  whose methods loop and assign as the source does and are proved equal to those rules.
  `SyncReachability`, `SyncConvergence`, `SyncPaging`, `SyncSnapshot` and `SyncRefinement` prove
  what the rules guarantee over runs, `SyncAnswers` what heads, answers and errors mean in the
  fields of the values.
- `TransferPolicy` and `TransferService` hold the pure policy and the handlers;
  `TransferService.Service` performs the statements of each handler on its two tables and
  restores them on failure. `TokenAnswers` and `TransferAnswers` state every answer and every
  row written in fields, `TransferIsolation` who may see and change what; `TransferStorage`,
  `TransferHistory`, `TransferRace`, `CreateRace`, `CreateAlone`, `LateClock` and
  `TransferListing` hold the other theorems.
- `AppVault`, `AppVaultPush`, `StepUpPolicy`, `StepUpConsumption`, and `VaultAnswers`, which states
  their answers in fields.

Conventions: strings are byte sequences. `u64`, `usize` and `i64` are integers with their bounds,
and checked, saturating and exhausted arithmetic is written out. Database times are microseconds;
`Seconds` rounds down to the whole seconds the policies see. A UUID is a number below 2^128. Each
error message of the sync engine is one constructor of `Reason`; `Cause` tells apart the ways a
transfer request becomes `temporarily_unavailable`, which the wire does not. Clock readings, fresh
identifiers, request digests, signature verdicts and the contract crate's own structural checks
are inputs that may take any value.

## Where the code does less, or other, than its prose

Each is proved as an exact condition or shown by a concrete input.

- Replicas of one delivered set need not converge: which of two contents under one identifier is
  accepted depends on the order of delivery, and on eviction
  (`SyncConvergence.ReusedIdentifierDiverges`). They converge for an object exactly when no valid
  mutation concerns it or a greatest one that does alone carries its identifier
  (`SyncConvergence.ConvergesExactly`).
- `validate_snapshot` accepts states no engine reaches (`SyncSnapshot.ForgedSnapshotAccepted`).
  Those an engine does reach are the coherent ones whose log repeats no identifier within the
  replay capacity (`SyncReachability.ReachableExactly`). An accepted snapshot stays accepted
  exactly when the sequence is exhausted before any identifier that its replay order repeats comes
  to be evicted (`SyncSnapshot.StaysAcceptedExactly`).
- A validated transfer may be refused by the table: the digest validator admits padding the column
  pattern refuses, and retention is validated in whole seconds while the constraint counts
  microseconds (`TransferStorage.ValidatedStorableExactly`).
- A repeated create is validated before its binding is looked up, so in the last minute before
  the transfer expires it is refused as a bad request (`TransferHistory.CreateReplays`).
- Acknowledging a settled transfer again under a fresh key after its expiry is decided as a success
  and then refused by the bindings table (`TransferStorage.AcknowledgeSucceedsExactly`).
- Looking a transfer up takes no row lock. However the halves of acknowledgements and cancellations
  interleave, the row shows the decision of its last writer, even over a terminal state, and the
  answers given are true exactly when every acknowledgement that is done asked for that state
  (`TransferRace.SettlementsSoundExactly`). Only parties that looked before the first write can
  rewrite a settled row (`TransferRace.LateLookersNeverWrite`).
- A request reads its clock before it waits for the advisory lock, so a later holder may have an
  earlier clock, and identical requests may end with different transfers
  (`LateClock.IdenticalRequestsSplit`). Two committed requests of one key share their transfer
  exactly when no request of the key that commits after the first, up to the second, reads a clock
  at or past the expiry of the first one's binding, and no acknowledgement takes the key in
  between (`CreateRace.SameKeySameTransfer`).
- List filters compare microseconds and responses compare seconds
  (`TransferListing.FilterMeetsResponse`).
- `docs/app-vault-step-up.md:103-104` says a proof's times lie inside the challenge window. Policy
  and database function admit proofs issued up to the clock skew before the challenge; the
  documented claim holds exactly for policies without skew, or that accept nothing
  (`StepUpPolicy.ProofInsideWindowExactly`).
- The Rust route test counts bytes and refuses control characters, the SQL one counts characters
  and does not (`Forms.RouteFormsMeet`).

## Model

| member | source | states |
|---|---|---|
| SyncProtocol.WinsTransitive | src/sync_protocol.rs:329-343 | the conflict order is transitive |
| SyncProtocol.WinsTotal | src/sync_protocol.rs:329-343 | of two entries with different sequences exactly one wins |
| Text.LessTotal | src/sync_protocol.rs:329-343 | the bytewise order used for device and mutation identifiers is total |
| Text.LessTransitive | src/sync_protocol.rs:329-343 | and transitive |
| Text.LessExactly | src/sync_protocol.rs:329-343 | a string is smaller exactly when it is a proper prefix or has the smaller byte where the two first differ |
| Text.PortableExactly | src/memebank_transfer.rs:501-507 | a portable identifier is 1 to 128 letters, digits and `-_.:` |
| SyncEngineObject.SyncEngine.New | src/sync_protocol.rs:98-113 | zero capacity is refused, any other gives a fresh, empty engine |
| SyncEngineObject.SyncEngine.RememberReplay | src/sync_protocol.rs:237-247 | the eviction loop leaves exactly the newest identifiers within capacity and the index without those evicted |
| SyncEngineObject.SyncEngine.Transition | src/sync_protocol.rs:134-183 | a new engine and result, or the error, as the pure rules say; the source engine is untouched |
| SyncEngineObject.SyncEngine.Apply | src/sync_protocol.rs:189-193 | commits a successful transition and leaves every field alone on an error |
| SyncEngineObject.SyncEngine.Page | src/sync_protocol.rs:205-215 | one scan finds the first `limit` entries past the cursor and whether another follows |
| SyncEngineObject.SyncEngine.Pull | src/sync_protocol.rs:195-224 | page, next cursor and `has_more`, with both error cases |
| SyncEngineObject.SyncEngine.ValidateSnapshot | src/sync_protocol.rs:249-295 | reports the first fault, or none |
| SyncEngineObject.SyncEngine.Restore | src/sync_protocol.rs:230-235 | an accepted snapshot comes back field by field; one that does not decode, or has a fault, is an `InvalidSnapshot` |
| SyncReachability.ReachableCoherent | src/sync_protocol.rs:134-193 | after any deliveries the log is dense, the records are its winners and the replay window is its tail |
| SyncReachability.ReachableExactly | src/sync_protocol.rs:134-193 | an engine is reached by some deliveries iff it is coherent and log entries within the capacity of each other carry different identifiers; its own log reaches it |
| SyncReachability.FullScanIsHead | src/sync_protocol.rs:329-343 | a full scan of a log finds the one entry that wins against all others for an object |
| SyncReachability.RecordsAreTheFullScan | src/sync_protocol.rs:161-174 | materialised view: in every reachable state the record of an object is what a full scan of the log finds |
| SyncReachability.ReplayDecision | src/sync_protocol.rs:137-150 | a valid mutation is replayed with its original sequence iff it is among the last min(capacity, length) entries, conflicts iff its identifier is there with other content, and is sequenced otherwise; the retained identifiers are distinct and as many as the window |
| SyncReachability.HeadsNeverRegress | src/sync_protocol.rs:161-172 | along any run a head never disappears and never decreases in the conflict order |
| SyncReachability.TombstonePersists | src/sync_protocol.rs:161-172 | a deleted object stays deleted until a larger clock arrives |
| SyncAnswers.HeadsInFields | src/sync_protocol.rs:161-172 | over runs, a record is an entry of the log for its object that no other exceeds in clock, then deletion, device, mutation identifier and sequence |
| SyncAnswers.AnswerInFields | src/sync_protocol.rs:134-183 | the whole answer of a reachable engine: first fault, conflict, replay, exhaustion, or sequenced next and applied exactly when it became the head |
| SyncAnswers.MutationFaultExactly | src/sync_protocol.rs:298-327 | each error of the mutation check by the bound or form that fails first, and acceptance by all of them |
| SyncAnswers.PullAnswers | src/sync_protocol.rs:195-224 | each error of a pull, and on any engine a page within the limit of entries past the cursor, complete when no more are announced |
| SyncAnswers.SnapshotFaultExactly | src/sync_protocol.rs:249-295 | each error of the snapshot check by the first check that fails, with the first bad log entry |
| SyncAnswers.RestoredExactly | src/sync_protocol.rs:230-235 | a decoded snapshot is restored as it is iff log, records and replay window pass; otherwise the first failing check is reported |
| SyncAnswers.LifeFailsExactly | src/sync_protocol.rs:226-235 | some deliveries and restarts end in a failed restart iff some deliveries lead to a state that is not accepted |
| SyncAnswers.ForgedLifeFails | src/sync_protocol.rs:249-295 | the forged snapshot is restored once, and after one fresh mutation refused as inconsistent |
| SyncConvergence.LogCarriesDeliveries | src/sync_protocol.rs:137-174 | the log carries exactly the valid mutations delivered, whatever was evicted and accepted again |
| SyncConvergence.ShortRunNeverExhausted | src/sync_protocol.rs:152-155 | fewer than 2^64 deliveries never meet the exhausted sequence |
| SyncConvergence.OwnerIsLogged | src/sync_protocol.rs:137-174 | a valid mutation that alone carries its identifier enters the log of every delivery |
| SyncConvergence.ConvergesExactly | src/sync_protocol.rs:134-183 | all deliveries of a set, in any order, with any repetitions and capacities, give an object the same head mutation iff none concerns it or a greatest that does alone carries its identifier |
| SyncConvergence.Converge | src/sync_protocol.rs:134-183 | hence, if identifiers determine mutations, two engines with the same delivered set hold the same head mutation for every object |
| SyncConvergence.LastContentWins | src/sync_protocol.rs:137-174 | an identifier reused after its eviction leaves the last content as the head |
| SyncConvergence.ReusedIdentifierDiverges | src/sync_protocol.rs:137-174 | a concrete pair of runs that diverge without the identifier condition |
| SyncRefinement.Model.Remember | src/bin/sync-model-check.rs:69-79 | the abstract model's eviction loop, for any capacity |
| SyncRefinement.Model.Apply | src/bin/sync-model-check.rs:44-86 | the abstract model's step, for any capacity and any watched object; mutations of other objects are sequenced without touching the winner |
| SyncRefinement.StepSimulates | src/bin/sync-model-check.rs:171-204 | from related states engine and model answer alike and stay related |
| SyncRefinement.EngineRefinesModel | src/bin/sync-model-check.rs:146-204 | for every run, capacity and object, engine and model are observationally equal and answer the next mutation alike, replays and conflicts at a full sequence included, unchanged on conflict |
| SyncRefinement.EngineRefinesScan | src/sync_protocol.rs:134-183 | the indexed engine gives the log and the answers of a machine that keeps only the log and scans it, errors and exhaustion included |
| SyncPaging.PullReturnsNext | src/sync_protocol.rs:195-224 | a pull returns the next entries after what the client holds and says whether more remain |
| SyncPaging.SessionStaysInStep | src/sync_protocol.rs:195-224 | however pulls and deliveries interleave, the client holds exactly the log prefix up to its cursor |
| SyncPaging.ClientReceivesPrefix | src/sync_protocol.rs:195-224 | from a new engine each pull moves the cursor to min(cursor + limit, server sequence), with `has_more` exactly while entries remain |
| SyncPaging.DrainTakesCeiling | src/sync_protocol.rs:195-224 | a quiescent log drains in ceil(remaining / limit) pulls |
| SyncSnapshot.LogFaultNone | src/sync_protocol.rs:256-271 | the log check passes exactly for strictly increasing, bounded sequences of valid mutations |
| SyncSnapshot.ReachableSnapshotAccepted | src/sync_protocol.rs:249-295 | every reachable engine passes the snapshot check |
| SyncSnapshot.RestartIsInvisible | src/sync_protocol.rs:226-235 | however many restarts from a snapshot interrupt the deliveries, each succeeds and the engine ends where the deliveries alone lead |
| SyncSnapshot.RestoredLogPagesOnce | src/sync_protocol.rs:195-295 | from any accepted snapshot, reachable or not, the log stays strictly increasing and paging yields each entry exactly once |
| SyncSnapshot.AcceptanceKeptExactly | src/sync_protocol.rs:237-295 | acceptance survives a step iff nothing is evicted or the evicted identifier occurs only once in the order |
| SyncSnapshot.DistinctSnapshotStaysAccepted | src/sync_protocol.rs:237-295 | an accepted snapshot without repeated identifiers stays accepted forever |
| SyncSnapshot.StaysAcceptedExactly | src/sync_protocol.rs:237-295 | an accepted snapshot stays accepted under all deliveries iff every identifier its replay order repeats is further from its eviction than the sequence lasts |
| SyncSnapshot.AmpleSequenceStaysAcceptedExactly | src/sync_protocol.rs:237-295 | with a capacity's worth of sequence left that means: iff its replay order repeats no identifier |
| SyncSnapshot.ForgedSnapshotAccepted | src/sync_protocol.rs:273-292 | a snapshot no run reaches is accepted, and the next fresh mutation makes it unacceptable |
| Forms.DigestStorableExactly | src/memebank_transfer.rs:534-541 | the column pattern is the digest validator together with exact padding |
| Forms.ValidatedDigestMayBeUnstorable | src/memebank_transfer.rs:534-541 | two digests the validator accepts and the column refuses |
| Forms.RouteFormsMeet | src/app_vault.rs:414-429 | the segment-wise Rust route test equals the SQL pattern test plus a byte bound and no control characters |
| Forms.RouteExactly | src/app_vault.rs:414-429 | a normalised route, segment by segment: no empty segment inside, no dot segments, no query, fragment or control character |
| Forms.BodyDigestFormsMeet | src/app_vault.rs:431-440 | the column pattern of body digests is the Rust test together with exact padding |
| Forms.SplitExactly | src/app_vault.rs:425-428 | splitting loses nothing and leaves no separator in a segment |
| Utf8.BlankExactly | src/memebank_transfer.rs:160-166 | the blank test accepts exactly encodings of white space |
| Utf8.ControlExactly | src/app_vault.rs:420-421 | the control test finds exactly the characters of category Cc |
| Utf8.CharLengthExactly | schema/schema.sql:611-618 | counting bytes that begin a character counts characters |
| TransferStorage.MediaTypeFormsMeet | src/memebank_transfer.rs:513-523 | the segment-wise media type test equals the column pattern |
| TransferPolicy.AcceptedTimesAreOneInterval | src/memebank_transfer.rs:102-180 | under the standard policy fixed claims are accepted at exactly one contiguous interval of at most 960 seconds, overflow cases included |
| TokenAnswers.AuthorizationAnswers | src/memebank_transfer.rs:102-180 | each refusal of a token by the check that fails first, and whom an acceptance names |
| TokenAnswers.AcceptedForOneOperation | src/memebank_transfer.rs:31-45 | a token is accepted for one operation at most |
| TokenAnswers.ReadIgnoresAssurance | src/memebank_transfer.rs:158-172 | reading does not look at assurance |
| TokenAnswers.CreateValidationAnswers | src/memebank_transfer.rs:240-266 | each answer of create validation by what fails first |
| TokenAnswers.IdempotencyAnswers | src/memebank_transfer.rs:396-432 | each answer of the idempotency decision: invalid, conflicting, new or replayed, with the second of expiry |
| TokenAnswers.TransitionAnswers | src/memebank_transfer.rs:320-353 | each answer to an acknowledgement and to a cancellation by state and expiry |
| TokenAnswers.AcknowledgementExactly | src/memebank_transfer.rs:311-318 | an acknowledgement is valid exactly in version 1 with a receipt of key form |
| TokenAnswers.ErrorsMapped | src/memebank_routes.rs:870-893 | the class in which every policy error is answered |
| TransferService.Service.ActiveIdempotency | src/memebank_routes.rs:581-604 | returns a live binding, deletes an expired one, touches no other key |
| TransferService.Service.InsertIdempotency | src/memebank_routes.rs:626-660 | stores the binding unless its key is taken or its lifetime is refused |
| TransferService.Service.CreateTransfer | src/memebank_routes.rs:205-296 | statement by statement, with rollback, equals the atomic create |
| TransferService.Service.AcknowledgeTransfer | src/memebank_routes.rs:388-494 | the same for acknowledge |
| TransferService.Service.CancelTransfer | src/memebank_routes.rs:496-531 | the same for cancel |
| TransferStorage.RetentionStorableExactly | src/memebank_transfer.rs:257-263 | a retention validated in seconds meets the constraint iff it is within thirty days to the microsecond |
| TransferStorage.ValidatedStorableExactly | src/memebank_transfer.rs:240-266 | a validated request meets every table constraint iff its digest padding and its expiry do |
| TransferStorage.CreateSucceedsExactly | src/memebank_routes.rs:270-296 | exactly when a fresh create succeeds; it adds one transfer and one binding and nothing else changes |
| TransferStorage.AcknowledgeSucceedsExactly | src/memebank_routes.rs:451-493 | exactly when an acknowledgement without a live binding succeeds, what it changes, and that failure changes nothing |
| TransferAnswers.RowChecksMean | schema/schema.sql:892-988 | what the constraints on a row's times and content require |
| TransferAnswers.SecondsExactly | src/memebank_routes.rs:239-240 | the seconds the policies see are whole and rounded down |
| TransferAnswers.InvalidCreateAnswers | src/memebank_routes.rs:219-233 | an invalid create is an incompatible version or a bad request and changes nothing |
| TransferAnswers.FreshCreateAnswers | src/memebank_routes.rs:270-296 | the row, binding and response of a fresh create field by field; its binding lives to the transfer's expiry, a day at most |
| TransferAnswers.InvalidAckAnswers | src/memebank_routes.rs:388-417 | an invalid acknowledgement is a bad request, and exactly when it is one |
| TransferAnswers.FreshAckAnswers | src/memebank_routes.rs:451-493 | every outcome of a valid acknowledgement under a free key, with row, binding and response field by field |
| TransferAnswers.CancelAnswers | src/memebank_routes.rs:496-531 | the row an owner's cancel leaves, field by field |
| TransferAnswers.ReachableTimes | src/memebank_routes.rs:205-531 | in every reachable database the times of a row tell its state and when it was settled, before its expiry second unless it was found expired |
| TransferIsolation.ForeignCancelNotFound | src/memebank_routes.rs:510-512 | a cancel is not found, and changes nothing, iff the caller does not own the transfer |
| TransferIsolation.ForeignAckNotFound | src/memebank_routes.rs:451-453 | likewise for a valid acknowledgement under a free key |
| TransferIsolation.OthersLeaveView | src/memebank_routes.rs:205-531 | no call changes another subject's transfers or bindings |
| TransferIsolation.RepliesShowOwnTransfers | src/memebank_routes.rs:662-675 | a reply shows a transfer of the caller, as it now is |
| TransferIsolation.OthersDoNotInterfere | src/memebank_routes.rs:205-531 | along any history under fresh identifiers a subject owns what it would own had nobody else called |
| TransferIsolation.AnswersDoNotDependOnOthers | src/memebank_routes.rs:205-531 | and is answered as it would be then |
| TransferHistory.HistoryKeepsSound | src/memebank_routes.rs:388-660 | soundness of both tables persists along every chronological history and a terminal row never changes |
| TransferHistory.ReachableSound | src/memebank_routes.rs:581-660 | from empty tables: each binding has a transfer of its subject, never outlives it, and an acknowledge binding carries its transfer's state |
| TransferHistory.BoundAnswer | src/memebank_transfer.rs:396-432 | a live binding answers with its transfer iff operation, route and digest match, and conflicts otherwise |
| TransferHistory.LiveBindingAnswers | src/memebank_routes.rs:239-268 | the branches after a live lookup that report unavailable are unreachable |
| TransferHistory.BoundCreateAnswers | src/memebank_routes.rs:241-268 | a create under a bound key changes nothing and is answered with the bound transfer, never shown as expired, iff the binding is a create's with the same digest, and conflicts otherwise |
| TransferHistory.TerminalForever | src/memebank_routes.rs:419-531 | in every serial run a terminal transfer keeps its whole row |
| TransferHistory.LiveBindingKept | src/memebank_routes.rs:581-604 | a binding is unchanged by every history within its life |
| TransferHistory.AcknowledgementReplays | src/memebank_routes.rs:406-493 | after any later history a repeated acknowledgement gets the first response, timestamps included, and changes nothing |
| TransferHistory.CreateReplays | src/memebank_routes.rs:219-268 | after any later history a repeated create adds nothing and gets the same transfer iff a minute of retention remains |
| TransferHistory.CancelClosesOnce | src/memebank_routes.rs:496-531 | cancelling closes a pending transfer as expired or cancelled, keeps a terminal one, and repeating it changes nothing |
| TransferRace.SerialSettlements | src/memebank_routes.rs:451-524 | parties in turn, in any order: the tables stay sound, the first terminal state stands, and each does what its handler does alone |
| TransferRace.HandlerIsBothHalves | src/memebank_routes.rs:451-524 | lookup and writes of an unhindered acknowledgement or cancellation, one after the other, are what its handler does, refusals included |
| TransferRace.SettlementsSoundExactly | src/memebank_routes.rs:451-524 | for any number of parties and any schedule of their halves the row shows its last writer's decision, and the tables are sound iff every acknowledgement that is done asked for that state |
| TransferRace.LateLookersNeverWrite | src/memebank_routes.rs:451-524 | a party that looks after some write never rewrites the row, whatever follows |
| TransferRace.AllLookFirst | src/memebank_routes.rs:451-524 | when all look before any commits, in any orders, none is refused, the last one's decision stands, and the tables are sound iff every acknowledgement asked for it |
| TransferRace.InterleavedSettlements | src/memebank_routes.rs:451-524 | for two parties: iff the first was a cancellation or the two agree |
| CreateRace.OneHolderPerKey | src/memebank_routes.rs:564-579 | in every run at most one create per key is past the advisory lock |
| CreateRace.RunKeepsSafe | src/memebank_routes.rs:235-295 | for any number of interleaved creates: at most one binding per key, and exactly one transfer per request that created one |
| CreateRace.CommitAnswersWithBinding | src/memebank_routes.rs:239-295 | whatever the clocks, a committed request is answered with the binding its key then has, a create's under its own digest |
| CreateRace.CommitDecides | src/memebank_routes.rs:581-604 | a commit under a bound key keeps the binding and creates nothing iff the binding outlives the request's clock reading |
| CreateRace.BindingFateAlongRun | src/memebank_routes.rs:235-295 | an undisturbed create binding remains, and once disturbed no later create is ever answered with its transfer |
| CreateRace.SameKeySameTransfer | src/memebank_routes.rs:235-295 | two committed requests of one key share a transfer iff, after the first and up to the second, no commit of the key has a clock reading at or past the expiry of the first one's binding and no acknowledgement takes the key; the second then created nothing and has the same digest |
| LateClock.RequestSplits | src/memebank_routes.rs:219-295 | identical requests whose clock readings straddle the expiry of the first one's binding have a run in which the first and the last get different transfers |
| LateClock.IdenticalRequestsSplit | src/memebank_routes.rs:219-295 | such a run for a concrete request, the last reading being one second before the late one |
| CreateRace.NeverStuck | src/memebank_routes.rs:564-579 | no deadlock: while a request is unfinished, some request can go on without rolling back |
| CreateAlone.AloneIsHandler | src/memebank_routes.rs:205-296 | a request that runs alone through the statements of the race ends with the tables and the answer of the create handler |
| TransferListing.OrderedIsTop | src/memebank_routes.rs:317-321 | the ordered, limited query returns the topmost keys in strictly descending order |
| TransferListing.Select | src/memebank_routes.rs:317-340 | the filters applied one by one select exactly the rows that meet owner, direction, state and cursor |
| TransferListing.ListTransfers | src/memebank_routes.rs:298-362 | the page shows only rows that qualify, newest first; each one that qualifies is on it or below the cursor, which is given exactly when one is left; bad limits and cursors are bad requests |
| TransferListing.HandlersTouchOneRow | src/memebank_routes.rs:205-531 | no handler changes more than one row, nor a row's owner, creation time or direction |
| TransferListing.FinishedWalkIsComplete | src/memebank_routes.rs:317-352 | a finished walk received every matching row of the start that met the state filter at every fetch exactly once, and only rows that met it at some fetch, descending, through any inserts and updates, limits and clocks |
| TransferListing.FilteredWalkIsExact | src/memebank_routes.rs:317-352 | over a fixed table at one clock reading a filtered walk receives exactly the rows that meet the filter |
| TransferListing.WalkTakesCeiling | src/memebank_routes.rs:342-352 | on a fixed table a walk ends after max(1, ceil(rows / limit)) fetches, and only the last page has no cursor |
| TransferListing.FilterMeetsResponse | src/memebank_routes.rs:715-800 | every row meets exactly one state filter, and the response agrees with it except in the expiry second of a pending row |
| AppVaultPush.NoFaultExactly | src/app_vault.rs:215-250 | a batch passes the scan iff each mutation is admissible and identifiers and record clocks are pairwise distinct |
| AppVaultPush.CheckMutation | src/app_vault.rs:215-248 | the two sets decide one mutation as a comparison with all earlier ones would |
| AppVaultPush.ValidateAppVaultPush | src/app_vault.rs:180-256 | success exactly for acceptable batches, with the true largest clock within BIGINT; otherwise the first failing check of the first failing mutation |
| VaultAnswers.DeviceAnswers | src/app_vault.rs:337-345 | each answer on an authenticated device |
| VaultAnswers.PrecheckAnswers | src/app_vault.rs:191-206 | each answer before the scan by the check that fails first |
| VaultAnswers.MutationAnswers | src/app_vault.rs:215-248 | each answer on one mutation by the check that fails first, the verifier's last |
| StepUpPolicy.ContextFormsMeet | src/app_vault.rs:347-360 | a stored context passes the Rust test iff its route is short in bytes and free of control characters |
| StepUpPolicy.ChallengeWindowsMeet | src/app_vault.rs:362-408 | the Rust challenge test and the SQL conditions accept the same times |
| StepUpPolicy.ProofWindowsMeet | src/app_vault.rs:290-326 | the Rust proof test and the SQL conditions accept the same times and mirrored fields |
| StepUpPolicy.ProofInsideWindowExactly | src/app_vault.rs:317-323 | all accepted proofs lie inside the window of their challenge iff the policy allows no clock skew |
| StepUpPolicy.PolicyAgreesWithSql | src/app_vault.rs:258-335 | the Rust policy accepts iff the proof is well formed, its signature is not rejected and the WHERE clause of the database function holds, apart from clock range and route form; a lone rejection is the answer |
| VaultAnswers.ContextExactly | src/app_vault.rs:347-360 | a valid request context by its fields, the four methods spelled out |
| VaultAnswers.ChallengeAnswers | src/app_vault.rs:362-408 | each answer on a challenge by the check that fails first |
| VaultAnswers.ProofAnswers | src/app_vault.rs:279-326 | each answer on a proof by the check that fails first |
| VaultAnswers.StepUpAnswers | src/app_vault.rs:258-335 | the whole answer: success names challenge, proof and instant; the verifier's refusal is returned as it is |
| StepUpConsumption.StepUpStore.Consume | schema/schema.sql:691-784 | alone, the function marks both rows at one instant and returns true exactly when the call is entitled field by field and nothing is used up, and otherwise changes nothing |
| StepUpConsumption.RunKeepsSound | schema/schema.sql:716-782 | over every interleaving challenges and proofs are consumed together and no call has raised |
| StepUpConsumption.NeverRaises | schema/schema.sql:755-780 | both RAISE branches are unreachable under the row locks |
| StepUpConsumption.AuthorizedOnce | schema/schema.sql:716-782 | a challenge or proof authorises at most one committed call, and the challenge records that call |
| StepUpConsumption.AuthorizedMeans | schema/schema.sql:705-744 | over every interleaving an authorised call was made by the challenge's own user and device for just the request challenged, with a verified, unexpired proof |

## Left out

- CreateRace.RunKeepsSafe: acknowledge and cancel appear beside the interleaved creates as whole transactions, not statement by statement.
- TransferRace.SettlementsSoundExactly: the writes of one party are one step, because the row lock of its UPDATE is held to commit; creates do not take part.
- TransferService.Service.CreateTransfer: the account upsert and the lock statement are not part of the method, which stands for a request that runs alone; the lock is modelled in CreateRace.
- TransferService.Service.AcknowledgeTransfer: likewise without its lock statement.
- SyncConvergence.ConvergesExactly: for fewer than 2^64 - 1 mutations, so that two deliveries of all of them exist that do not exhaust the sequence.
- TransferListing.FinishedWalkIsComplete: a row that meets the state filter at some fetches only may or may not be received.
- SyncRefinement.EngineRefinesModel: the model counts its sequence without a bound, so what an exhausted engine answers to a new mutation is covered by EngineRefinesScan instead.
- Axum routing, header parsing, HTTP status codes, token introspection and process startup; a request arrives authorised and parsed.
- `get_transfer` and `authorize_owned_transfer`: a lookup by owner that would only add an easy member.
- serde_json, base64, SHA-256, UUID and RFC 3339 internals: snapshots and cursors are taken as decoded values, a request digest is any text whose equality decides replay.
- Why a snapshot or cursor text fails to decode, `validate_opaque_cursor` included; that it fails is an input. Encoding never fails.
- The contract crate's `request.validate()` and `proof.validate`, and signature verification: arbitrary inputs.
- Clock precision below a microsecond, which the database drops.
- `ensure_account`, foreign keys, cascading deletes and row-level security; subjects are assumed to have accounts that are not deleted.
- Lost connections and failed statements, except as a rollback at any statement in `CreateRace` and `StepUpConsumption`.
- The route text of a binding: its two possible forms are a datatype, and both are normalised. The surrogate identifier of a binding row is not modelled.
- The subject syntax check inside `evaluate_idempotency`: authorisation has already parsed the subject as a UUID.
- Taking the row locks of `consume_external_step_up` is one step for both rows, so waiting between the two is not modelled.
- `src/memebank_integration.rs`, which the service does not compile; `src/account_security.rs` and `src/encrypted_objects.rs`, whose range checks and small state machines would only add easy members.
- Application-vault head selection, which the documentation describes and no code implements.
