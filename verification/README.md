# Verified models of Greenlight's plugin and client cores

Dafny models of six parts of Greenlight, with proofs of what they guarantee.
`dafny verify dfyconfig.toml` checks everything.

* **Trampoline allocator** (`Trampoline*.dfy`). The backtracking search that
  splits a payment over channels, each with a lower bound (minimum HTLC) and an
  upper bound (spendable amount). `Verdict` is its three-way answer, `Appended`
  what it leaves on the shared stack; the class `Allocations` runs the search in
  place and is proved equal to both. On top come the closed form of the verdict,
  the exact condition under which the stack is a correct allocation, the in-place
  sorts, and the ascending-then-descending payment.
* **Request stager** (`Stager*.dfy`). Pending requests, the broadcast to
  attached signers with late replay, and one-slot reply channels; classes for
  the stage and its streams, and a state machine over all interleavings of their
  operations.
* **Versioned signer state** (`Persist*.dfy`). `merge` and `diff` of versioned
  maps, entry lists, and replicated runs with messages that are partial, late,
  reordered and repeated.
* **TLV codec** (`Tlv*.dfy`). BigSize and truncated integers, printing, parsing
  and the mutable stream.
* **JIT channel payload** (`Lsp.dfy`). The amendment of the onion payload of an
  underpaid HTLC.
* **Channel readiness** (`Awaitables*.dfy`). The phased future with back-off:
  what one poll answers, stores and asks in closed form, and whole runs.

Slices are a list and an offset; amounts and versions are `u64` values, so that
every subtraction is shown not to underflow; a Rust panic is an outcome of its
own. Clocks, RPC replies, the order of a hash map and the broadcast capacity are
parameters.

Findings about the code:

* The descending pass of the allocator can return a wrong allocation: an attempt
  that fails with `Impossible` leaves its entries on the stack, and a later retry
  keeps them. With channels (spendable, minimum) = (2000, 1700), (1500, 1300),
  (400, 100), which pass the caller's filters, a payment of 3000 is split into
  2000 + 1700 + 1300 (`OverpaymentWitness`). `PaymentSoundExactly` says exactly
  when this happens; without a blocking channel it does not.
* The fallback at lines 880-884 of `tramp.rs` is dead code (`FallbackUnreachable`),
  and the backtracking decides no more than a single pass would
  (`SinglePassDecides`).
* The insufficient-funds error can be raised although a correct split exists
  (`IncompletenessWitness`); `ErrorWrongExactly` says exactly when.
* `delete_channel` never removes a channel (`DeleteChannelExactly`).
* An update of the version 2^64 - 1 wraps, and every replica that has the key
  then keeps its own entry (`UpdateTravelsExactly`).
* `get_tu64` panics on the output of `put_tu64` for numbers of 0, 3, 5, 6 or 7
  significant bytes (`Tu64RoundTripExactly`).
* The length prefix of a serialized stream is read but not enforced
  (`LengthPrefixIgnored`), although a comment there says that overruns are
  protected against; `LengthPrefixHonouredExactly` says when this shows.

## Model

| member | source | states |
|---|---|---|
| Trampoline.Allocations.TryAllocate | libs/gl-plugin/src/tramp.rs:811-894 | in any channel order, the in-place search answers the verdict, which depends on channels and target alone, and only ever adds to the stack it was given; no u64 underflows |
| Trampoline.FindAllocation | libs/gl-plugin/src/tramp.rs:786-901 | nothing for a zero target; otherwise the entries left by a successful search |
| TrampolineTheory.UsableExactly | libs/gl-plugin/src/tramp.rs:829-832 | a channel is skipped iff there is no positive amount between its minimum and what it can spend |
| TrampolineTheory.SingleChannelExactly | libs/gl-plugin/src/tramp.rs:811-894 | one channel is given exactly the targets it can carry, whole; a minimum of 0 is no obstacle |
| TrampolineTheory.ShortfallExact | libs/gl-plugin/src/tramp.rs:839-893 | a reported shortfall is positive and exact: that much more succeeds, and less more asks for exactly the difference or succeeds |
| TrampolineTheory.RetrySucceeds | libs/gl-plugin/src/tramp.rs:868-879 | the retry after freeing the shortfall always succeeds |
| TrampolineTheory.FallbackUnreachable | libs/gl-plugin/src/tramp.rs:880-885 | a search without the skip-this-channel fallback has the same verdict on all inputs |
| TrampolineTheory.VerdictBoundsFunds | libs/gl-plugin/src/tramp.rs:796-803 | success implies that the usable funds cover the target, impossible implies that they do not |
| TrampolineTheory.BlockerUnique | libs/gl-plugin/src/tramp.rs:839-848 | at most one channel's minimum stands in the way of a target |
| TrampolineTheory.DecisionWithoutBlocker | libs/gl-plugin/src/tramp.rs:811-894 | any order, no blocking channel: the search decides exactly whether the usable funds cover the target |
| TrampolineTheory.DecisionWithBlocker | libs/gl-plugin/src/tramp.rs:811-894 | any order, channel j blocking: success iff the later channels place the remainder or the minimums up to j fit, else the shortfall is the exact excess of those minimums |
| TrampolineTheory.AscendingDecision | libs/gl-plugin/src/tramp.rs:753-766 | ascending order, channel j blocking: the same with the later channels decided too, in terms of amounts alone |
| TrampolineTheory.SinglePassDecides | libs/gl-plugin/src/tramp.rs:811-894 | any order: a single pass over the amounts, without backtracking, decides whether the search succeeds or lacks at most a given slack |
| TrampolineTheory.SuccessIsSinglePass | libs/gl-plugin/src/tramp.rs:896-900 | any order: an allocation of a target is found iff the single pass without slack places it |
| TrampolineTheory.ImpossibleIsDry | libs/gl-plugin/src/tramp.rs:822-824 | the search answers impossible iff every usable channel is drained without a blocker and something remains |
| TrampolineTheory.ShortfallIsLacking | libs/gl-plugin/src/tramp.rs:864-891 | the shortfall that cascades up, as a scan of the amounts |
| TrampolineTheory.TinyMinimumsComplete | libs/gl-plugin/src/tramp.rs:786-901 | with minimums of at most 1 an allocation is found iff the usable funds cover a positive target, in any order |
| TrampolineStack.LeftoverExact | libs/gl-plugin/src/tramp.rs:860-862 | a failed search leaves entries on the stack iff it runs dry after its last blocked channel, a condition on the amounts |
| TrampolineStack.SuccessExact | libs/gl-plugin/src/tramp.rs:851-893 | any order: a successful search leaves a correct allocation iff no retry runs over stale entries, a condition on the amounts; else the parts exceed the target and a channel is used twice |
| TrampolineStack.AscendingStaysClean | libs/gl-plugin/src/tramp.rs:753-766 | in ascending order a search that needs space leaves the stack as it was, and no retry meets stale entries |
| TrampolineStack.AscendingSound | libs/gl-plugin/src/tramp.rs:753-766 | in ascending order a returned allocation adds up to the target, respects every channel's bounds and uses no channel twice; its parts are positive if the minimums are |
| TrampolineStack.FoundSoundExactly | libs/gl-plugin/src/tramp.rs:947-967 | any order: the intended contract holds iff no retry ran over stale entries; the total is never below the target |
| TrampolineStack.TinyMinimumsSound | libs/gl-plugin/src/tramp.rs:786-901 | with minimums of at most 1 the returned allocation is correct in any order |
| TrampolineStack.VerdictSound | libs/gl-plugin/src/tramp.rs:796-803 | any order: a success verdict means that a correct allocation exists, namely the one left if failed attempts were truncated |
| TrampolinePayment.SortCorrect | libs/gl-plugin/src/tramp.rs:738-742 | both sorts order the channels by their comparator and permute them |
| TrampolinePayment.SortOrders | libs/gl-plugin/src/tramp.rs:738-763 | spelled out for any two positions: spendable amounts ascend or descend, and among equal ones the smaller minimum comes first |
| TrampolinePayment.SortStable | libs/gl-plugin/src/tramp.rs:759-763 | both sorts keep the order of channels that compare as equal |
| TrampolinePayment.FindAllocationOrdered | libs/gl-plugin/src/tramp.rs:725-766 | sorts the caller's slice in place and searches it |
| TrampolinePayment.Allocate | libs/gl-plugin/src/tramp.rs:459-479 | ascending, then descending; the slice is left sorted by the last pass made, and a result of the ascending pass is correct for it |
| TrampolinePayment.PaymentSoundExactly | libs/gl-plugin/src/tramp.rs:459-479 | a payment is split correctly iff the single pass succeeds in ascending order or the descending search does not retry over stale entries; otherwise it overpays |
| TrampolinePayment.PaymentSoundWithoutBlocker | libs/gl-plugin/src/tramp.rs:465-468 | a payment is split correctly, within bounds and without using a channel twice, if no channel blocks in descending order |
| TrampolinePayment.RefusedExactly | libs/gl-plugin/src/tramp.rs:469-476 | the insufficient-funds error is raised iff the usable funds are short or both orders refuse: a channel blocks, the minimums up to it exceed the target, and the later channels cannot place the rest |
| TrampolinePayment.SplitExistsExactly | libs/gl-plugin/src/tramp.rs:947-967 | a correct split exists iff some choice of usable channels has the target between its minimums and its spendable amounts |
| TrampolinePayment.FundsAreMost | libs/gl-plugin/src/tramp.rs:947-967 | the usable funds are the largest target that has a correct split |
| TrampolinePayment.ErrorWrongExactly | libs/gl-plugin/src/tramp.rs:469-476 | the error is raised although a correct split exists iff both orders refuse a target that some choice of channels can carry |
| TrampolinePayment.InsufficientFundsHonest | libs/gl-plugin/src/tramp.rs:469-476 | the special case of minimums of at most 1: the error is raised iff the target exceeds the usable funds |
| TrampolinePayment.DecisionIgnoresListing | libs/gl-plugin/src/tramp.rs:459-479 | whether a payment can be split does not depend on the order in which the channels are listed |
| TrampolinePayment.OverpaymentWitness | libs/gl-plugin/src/tramp.rs:860-893 | a payment of 3000 that is split into parts adding up to 5000, although a correct split exists |
| TrampolinePayment.IncompletenessWitness | libs/gl-plugin/src/tramp.rs:459-479 | a payment that both passes refuse although a correct split exists |
| Stager.Stage.Send | libs/gl-plugin/src/stager.rs:39-62 | stores the request, bytes included, under its id, broadcasts the same and opens a fresh, empty reply channel |
| Stager.Stage.MyStream | libs/gl-plugin/src/stager.rs:64-72 | the new stream starts with all pending requests, each once, and reads on from the end of the broadcast |
| Stager.Stage.Respond | libs/gl-plugin/src/stager.rs:74-98 | forgets the request of that id and no other; answers unknown iff there was none; all other error cases |
| Stager.Stage.IsStuck | libs/gl-plugin/src/stager.rs:100-117 | true iff a pending request starts with the bytes 0, 5 or 0, 28; panics iff one is shorter than two bytes |
| Stager.StageStream.Next | libs/gl-plugin/src/stager.rs:127-138 | backlog first, then the broadcast; more than the capacity behind, it reports a lag and stays the capacity behind |
| Stager.StageStream.Drop | libs/gl-plugin/src/stager.rs:141-145 | counts one connection less |
| StagerRuns.StepKeepsInv | libs/gl-plugin/src/stager.rs:39-145 | every step keeps the invariant of stage, streams and reply channels |
| StagerRuns.LogIsSent | libs/gl-plugin/src/stager.rs:49-59 | in every run what is broadcast is what was sent, in order and byte for byte |
| StagerRuns.PendingIsSent | libs/gl-plugin/src/stager.rs:49-55 | in every run what is pending under an id is the request that was sent with it |
| StagerRuns.SnapshotExact | libs/gl-plugin/src/stager.rs:64-72 | in every run each attach makes one stream, which starts with exactly the requests sent and not responded to before that step |
| StagerRuns.DeliveryExact | libs/gl-plugin/src/stager.rs:64-72 | in every run, what a stream yielded, has in its backlog and has queued is, in order and without repetition, what was outstanding when it attached and sent since, as sent, less the places dropped by lags; all of it for a stream that never lags, however much was sent |
| StagerRuns.LagDropsExactly | libs/gl-plugin/src/stager.rs:133-136 | in every run a lag drops the oldest queued requests beyond the capacity and no others |
| StagerRuns.LostExactly | libs/gl-plugin/src/stager.rs:133-136 | in every run a stream loses nothing iff it never receives with more than the capacity queued |
| StagerRuns.CapacityNeverLags | libs/gl-plugin/src/stager.rs:31 | a stream cannot lag before more requests than the capacity were sent since it attached |
| StagerRuns.PendingNotLost | libs/gl-plugin/src/stager.rs:126-139 | in every run each pending request is due to each stream at one place; it is yielded, in the backlog or queued, exactly once, iff that place was not dropped, and always for a stream that never lags |
| StagerRuns.RepliesExact | libs/gl-plugin/src/stager.rs:44-98 | in every run answering never blocks under the lock; a response is delivered iff its request is pending and the requester listens; a reply channel carries at most one response, with its own id; the counter equals the live streams |
| StagerRuns.RespondExactly | libs/gl-plugin/src/stager.rs:74-98 | at any hub: unknown, gone, blocked or delivered by the state of the reply channel, and what is put into it |
| StagerRuns.OpenExactly | libs/gl-plugin/src/stager.rs:44-61 | in every run a requester listens from its send until it gives up |
| StagerRuns.AnswerExact | libs/gl-plugin/src/stager.rs:74-98 | in every run a reply channel was given a response iff it is the first one after the send and the requester had not given up, a condition on the steps alone |
| StagerRuns.PendingExactly | libs/gl-plugin/src/stager.rs:39-98 | in every run exactly the requests sent and not responded to are pending |
| StagerRuns.FirstResponseWins | libs/gl-plugin/src/stager.rs:74-98 | in every run the first response to a waiting requester is delivered; at every later point it is still the only one, and further responses change nothing |
| Persist.State.Merge | libs/gl-client/src/persist.rs:211-242 | the loop computes the pointwise newest map, and returns what `diff` lists just before, in its order, with old and new versions |
| Persist.State.InsertNode | libs/gl-client/src/persist.rs:30-51 | stores node and node state at version 0, or panics and changes nothing if either exists |
| Persist.State.Update | libs/gl-client/src/persist.rs:96-109 | stores the value at the next version, or panics if the key is absent; also `update_node` and `update_tracker` |
| Persist.State.Insert | libs/gl-client/src/persist.rs:80-90 | stores the value at version 0, or panics if the key exists; also `new_chain_tracker` |
| Persist.State.UpdateNodeAllowlist | libs/gl-client/src/persist.rs:453-473 | stores at version 0 or at the next version |
| Persist.State.DeleteChannel | libs/gl-client/src/persist.rs:92-94 | removes exactly the unprefixed key |
| Persist.KeysInUse | libs/gl-client/src/persist.rs:18-22 | the five kinds of keys, spelled out |
| PersistTheory.KeysDistinct | libs/gl-client/src/persist.rs:35-36 | keys of different kinds or ids never coincide, whatever the ids contain |
| PersistTheory.LessExactly | libs/gl-client/src/persist.rs:26 | the key order is that of the first difference, or of a proper prefix |
| PersistTheory.UpdatedExactly | libs/gl-client/src/persist.rs:103-107 | an update stores the new value at the next version, 0 after the last, and touches no other key |
| PersistTheory.InsertedExactly | libs/gl-client/src/persist.rs:87-88 | an insertion stores the value at version 0 and touches no other key |
| PersistTheory.MergeIsNewest | libs/gl-client/src/persist.rs:208-242 | the merge is the only map with both sides' keys and at each the newest entry, the left one on a tie |
| PersistTheory.MergeIdempotent | libs/gl-client/src/persist.rs:223-224 | idempotent on all states |
| PersistTheory.MergeAssociative | libs/gl-client/src/persist.rs:211-242 | associative on all states |
| PersistTheory.MergeCommutativeExactly | libs/gl-client/src/persist.rs:223-224 | commutative iff equal versions carry equal values |
| PersistTheory.MergeBackExactly | libs/gl-client/src/persist.rs:211-242 | merging the result back reaches the same state iff equal versions carry equal values |
| PersistTheory.DiffExact | libs/gl-client/src/persist.rs:244-259 | the difference lists exactly the missing and outdated keys, with both entries |
| PersistTheory.DiffAscends | libs/gl-client/src/persist.rs:244-259 | and lists them in strictly ascending key order |
| PersistTheory.ReportExact | libs/gl-client/src/persist.rs:211-242 | a merge reports exactly the keys it takes over, in ascending order, with the version it had, if any, and the newer one it has |
| PersistTheory.DiffAfterMerge | libs/gl-client/src/persist.rs:211-260 | nothing differs after a merge |
| PersistTheory.DiffSuffices | libs/gl-client/src/persist.rs:211-260 | merging only the difference gives the same state as merging everything |
| PersistTheory.EntriesRoundTrip | libs/gl-client/src/persist.rs:262-287 | a state survives the transfer as an entry list |
| PersistTheory.ToEntriesExact | libs/gl-client/src/persist.rs:262-273 | the list has one entry for each key, with value and version, in key order |
| PersistTheory.FromEntriesLast | libs/gl-client/src/persist.rs:275-287 | of several entries with one key the last is read |
| PersistTheory.FromEntriesKeys | libs/gl-client/src/persist.rs:275-287 | exactly the listed keys are read |
| PersistTheory.UpdateTravelsExactly | libs/gl-client/src/persist.rs:103-107 | a replica that is no newer takes over an update iff it lacks the key, the version did not wrap, or it has that entry already |
| PersistTheory.UpdateReachesExactly | libs/gl-client/src/persist.rs:103-107 | a replica in the state before the update reaches the state after it iff the version did not wrap |
| PersistTheory.StepKeepsInv | libs/gl-client/src/persist.rs:211-242 | every write, shipment and delivery keeps the replication invariant |
| PersistTheory.WriteStored | libs/gl-client/src/persist.rs:96-109 | after a write step the replica holds the written value; all else is as it was |
| PersistTheory.WriteIsNewest | libs/gl-client/src/persist.rs:103-107 | a write step makes a version of its key that nobody has written before |
| PersistTheory.WriteSurvives | libs/gl-client/src/persist.rs:211-242 | in every run, whatever is delivered afterwards, the writer and every replica the write has reached hold the written value or a later version |
| PersistTheory.ShipmentArrives | libs/gl-client/src/persist.rs:211-242 | a shipment is the chosen part of the state, and its delivery merges it |
| PersistTheory.VersionsNeverDecrease | libs/gl-client/src/persist.rs:225-227 | in every run, between any two points, no replica loses a key or lowers a version |
| PersistTheory.StatesAgree | libs/gl-client/src/persist.rs:211-242 | in every run equal key and version mean equal value, at rest and under way |
| PersistTheory.SameWritesSameState | libs/gl-client/src/persist.rs:208-242 | in every run replicas that have seen the same writes are equal, whatever the deliveries |
| PersistTheory.MutualMergeConverges | libs/gl-client/src/persist.rs:208-242 | in every run two replicas that merge each other's states become equal, at once or one after the other |
| Tlv.SerializedTlvStream.Insert | libs/gl-plugin/src/tlv.rs:23-38 | refuses a type that is there, else sorts the entry in |
| Tlv.SerializedTlvStream.SetBytes | libs/gl-plugin/src/tlv.rs:40-54 | replaces the first entry of the type or sorts a new one in; the inner insert never fails |
| Tlv.SerializedTlvStream.SetTu64 | libs/gl-plugin/src/tlv.rs:56-60 | sets the truncated encoding |
| Tlv.SerializedTlvStream.ToBytes | libs/gl-plugin/src/tlv.rs:162-173 | the loop appends type, length and value of every entry |
| Tlv.FromBytes | libs/gl-plugin/src/tlv.rs:70-88 | the loop parses entries while two bytes remain; reading past the end is the panic |
| Tlv.BytesMut.PutCompactSize | libs/gl-plugin/src/tlv.rs:124-140 | appends the BigSize encoding |
| Tlv.BytesMut.PutTu64 | libs/gl-plugin/src/tlv.rs:142-153 | appends the truncated encoding |
| TlvTheory.ToBEDigit | libs/gl-plugin/src/tlv.rs:128-148 | byte k of n is the digit of weight 256^(n-1-k) |
| TlvTheory.FromBEDigit | libs/gl-plugin/src/tlv.rs:100-113 | and reading takes it as such |
| TlvTheory.CompactSizeForms | libs/gl-plugin/src/tlv.rs:124-140 | the four forms of a BigSize, by their literal bounds and markers |
| TlvTheory.GetCompactSizeForms | libs/gl-plugin/src/tlv.rs:98-106 | the four ways to read one from any bytes, and when it panics |
| TlvTheory.EntryLayout | libs/gl-plugin/src/tlv.rs:166-170 | type, then length, then value |
| TlvTheory.CompactSizeRoundTrip | libs/gl-plugin/src/tlv.rs:97-140 | decoding consumes exactly what was encoded, whatever follows (BOLT #1, Type-Length-Value Format) |
| TlvTheory.CompactSizeReencode | libs/gl-plugin/src/tlv.rs:97-140 | re-encoding never grows, and reproduces the bytes iff they were minimal |
| TlvTheory.ParseAfterSerialized | libs/gl-plugin/src/tlv.rs:70-106 | parsing a serialized stream followed by anything gives its entries, then those of the rest |
| TlvTheory.RoundTrip | libs/gl-plugin/src/tlv.rs:162-173 | parsing what was serialized gives the same stream |
| TlvTheory.ConcatenationParses | libs/gl-plugin/src/tlv.rs:70-88 | two serialized streams after each other parse to the concatenation |
| TlvTheory.LengthPrefixIgnored | libs/gl-plugin/src/tlv.rs:186-190 | for all bytes, the length before them does not change what is parsed |
| TlvTheory.LengthPrefixHonouredExactly | libs/gl-plugin/src/tlv.rs:186-190 | a stream behind its true length is what is read iff less than two bytes follow it |
| TlvTheory.Reencode | libs/gl-plugin/src/tlv.rs:76-173 | serializing what was parsed reproduces the input iff it was canonical (minimal types and lengths, no trailing byte), and is shorter otherwise |
| TlvTheory.Tu64Value | libs/gl-plugin/src/tlv.rs:142-153 | no leading zero, and the big-endian value is the number (BOLT #1, Fundamental Types) |
| TlvTheory.Tu64Injective | libs/gl-plugin/src/tlv.rs:142-153 | distinct numbers have distinct encodings |
| TlvTheory.Tu64RoundTripExactly | libs/gl-plugin/src/tlv.rs:108-116 | the decoder inverts the encoder exactly for 1, 2, 4 or 8 significant bytes |
| TlvTheory.CanonicalInjective | libs/gl-plugin/src/tlv.rs:76-106 | distinct canonical inputs parse to distinct streams |
| TlvTheory.SerializedCanonical | libs/gl-plugin/src/tlv.rs:162-173 | whatever is serialized is canonical |
| TlvTheory.LookupWithValue | libs/gl-plugin/src/tlv.rs:40-54 | on any stream, a value set is read back and no other type is affected |
| TlvTheory.LookupFirst | libs/gl-plugin/src/tlv.rs:19-21 | of several entries of a type the first is found |
| TlvTheory.SortByTypeExact | libs/gl-plugin/src/tlv.rs:23-38 | on any stream the sort orders by type and keeps the entries of each type, and their order |
| TlvTheory.RunMeaning | libs/gl-plugin/src/tlv.rs:14-60 | every stream built from scratch has strictly increasing types and holds what a plain map holds |
| TlvTheory.BytesOfContents | libs/gl-plugin/src/tlv.rs:14-173 | the bytes sent depend only on the contents, not on how they were set |
| Lsp.OnHtlcAccepted | libs/gl-plugin/src/lsp.rs:77-151 | the hook's answer for every request and invoice reply |
| Lsp.HookExactly | libs/gl-plugin/src/lsp.rs:87-151 | exactly when the payload is amended, when the secret's slice panics and when the invoice lookup's failure is passed on; in all other cases the payload is left alone |
| Lsp.JitAmendment | libs/gl-plugin/src/lsp.rs:94-140 | the emitted bytes are canonical and parse to the HTLC amount in type 2, the 32 secret bytes and the invoice total in type 8 (BOLT #4, Payload Format), all other types unchanged, in strictly increasing order if they came so |
| Awaitables.AwaitableChannel.Poll | libs/gl-plugin/src/awaitables.rs:108-231 | one poll updates fields and sub-futures as its five phases say, for any answers of the sub-futures |
| AwaitablesTheory.PollAnswers | libs/gl-plugin/src/awaitables.rs:108-231 | a poll is ready with an amount iff it gets to ask for it and is answered that amount; with an error iff a phase other than the route is asked and fails |
| AwaitablesTheory.PollStores | libs/gl-plugin/src/awaitables.rs:122-213 | a phase passes iff it is asked and answers well, the version is the one answered, and the back-off restarts iff the billboard is not ready or no route is found |
| AwaitablesTheory.PollKeeps | libs/gl-plugin/src/awaitables.rs:122-157 | the version and peer sub-futures stay unless asked, and are never dropped |
| AwaitablesTheory.PollDropsBillboard | libs/gl-plugin/src/awaitables.rs:159-189 | the billboard sub-future is dropped iff it is asked and not ready |
| AwaitablesTheory.PollDropsRoute | libs/gl-plugin/src/awaitables.rs:191-213 | the route sub-future is dropped iff it is asked and fails |
| AwaitablesTheory.PollKeepsSpendable | libs/gl-plugin/src/awaitables.rs:215-230 | the amount's sub-future stays unless asked, and is never dropped |
| AwaitablesTheory.PollLogs | libs/gl-plugin/src/awaitables.rs:108-231 | which sub-futures a poll makes, when, and in what state it polls them |
| AwaitablesRuns.RunOk | libs/gl-plugin/src/awaitables.rs:112-231 | in every run up to the first ready: no completed sub-future is polled, attempts of the same check start at least 250 ms apart, phases pass in order, an amount needs all four |
| AwaitablesRuns.RunMovesForward | libs/gl-plugin/src/awaitables.rs:122-213 | in every run a phase that has passed stays passed |
| AwaitablesTheory.RunPassedExactly | libs/gl-plugin/src/awaitables.rs:122-213 | in every run a phase has passed iff some poll asked it and it answered well |
| AwaitablesTheory.RunVersion | libs/gl-plugin/src/awaitables.rs:122-136 | in every run the stored version is one that a poll was answered |
| AwaitablesTheory.RunBackOffExactly | libs/gl-plugin/src/awaitables.rs:114-120 | in every run the back-off counts from the latest failed check, and from nothing before the first |
| AwaitablesTheory.RunAmountExactly | libs/gl-plugin/src/awaitables.rs:108-231 | a run ends with an amount iff its last poll came 250 ms after the last failed check, each of the four checks had been answered well by then, and this amount was answered |
| AwaitablesTheory.GoodPollEnds | libs/gl-plugin/src/awaitables.rs:108-231 | from any pending point of a run, one poll after the back-off with good answers ends it with the amount |

## Left out

- Stager: request ids are assumed fresh, as they come from a counter (libs/gl-signerproxy/src/hsmproxy.rs:110) that would repeat after 2^32 requests.
- Stager: a closed broadcast channel, request start times, and the payload fields other than the raw message.
- Stager: `Received.Pending` stands for a receive that waits; wakers and cancellation are not modelled.
- Persist: value contents and their JSON encoding; values are compared by their text. Strings are ordered by character code, which is the byte order for the ASCII keys in use.
- Persist: deletions and `clear` in the replicated runs, since there are no tombstones; an update in a run is below the version at which it would wrap.
- Persist: `get_node_channels` and the restoring of nodes, which decode value contents.
- Trampoline: the floating-point overpay that precedes the allocation, the payment parts sent afterwards, and the sum in the error message. The library's stable sort is modelled as an insertion sort on values written back in place.
- Trampoline: soundness of the stack in descending order is not claimed; its exact condition is.
- Tlv: hex and JSON around a stream, and 32-bit platforms, where the length would be truncated.
- Lsp: JSON decoding and the invoice RPC; their outcomes are parameters.
- Awaitables: what the sub-futures do, and wakers; their answers and all clock readings are parameters. The phases of one poll are methods of their own.
- All other gRPC, RPC, TLS, storage, binding and command line code.
