# Verified model of the VectorCore SGW

VectorCore SGW is a 4G Serving Gateway in two halves: the SGW-C speaks GTPv2-C with the MME
(S11) and the PGW (S5/S8-C) and controls the SGW-U over PFCP; the SGW-U forwards GTP-U
packets, mostly in an XDP program. This Dafny project models the parts of both whose
correctness depends on many steps at once, and proves what they promise for all inputs, runs
and interleavings. `dafny verify dfyconfig.toml` checks it.

## Modules

| module | models |
|---|---|
| `Wrappers`, `Bytes`, `Addresses` | options and results, big-endian integers, IPv4 addresses as bytes and text |
| `InformationElements`, `Messages`, `Identifiers` | the GTPv2-C codec of TS 29.274 section 5: nested elements, headers, piggyback framing, TBCD, APN and PLMN encodings |
| `Retransmission` | at-most-once handling of inbound requests (TS 29.274 section 7.6) as interleaved atomic steps |
| `Collision` | the per-session procedure tracker and its two policies |
| `Sessions` | session and bearer state, rule identifiers, lifecycle |
| `SessionManager` | the session store: six indexes and the S11 TEID pool |
| `SessionSnapshot` | checkpoints, and restoring a store from them |
| `CreateBearer` | committing or rolling back provisional PFCP rules when the MME answers |
| `CreateBearerTxn` | duplicate, fingerprint, pending and timer handling around it |
| `ModifyBearer` | Modify Bearer and Release Access Bearers, request by request, against the SGW-U's downlink FARs |
| `ModifyBearerSteps` | the same with requests interleaving between storing an endpoint and the PFCP answer |
| `DdnControl`, `DelayedDdn` | notification throttling and the bounded delayed queue |
| `RuleCompiler`, `XdpProgram`, `Checksum` | PDRs and FARs compiled into one shared map (TS 29.244 section 8.2.26), the packet program that interprets it, the Internet checksum (RFC 1071) |

Code that changes state is modelled by methods over mutable fields or arrays, each tied to a
specification function; the lemmas are about those functions and the runs built from them.
Concurrency is interleaving of the steps the source makes atomic under its mutexes or between
its messages; `ModifyBearer` takes requests one at a time, `ModifyBearerSteps` interleaves them.
Times are integers in nanoseconds, zero being Go's zero time. Failures of PFCP, of map
operations and of the transport, results of random generators, route lookups and clock readings
are parameters, so every pattern of them is covered.

## Where the code does less than it says

The following hold of the code as it is. Each has an exact condition or a concrete run below.

- A PFCP modification that removes a PDR leaves its forwarding rule in the map, past the end of
  its session, until some later call lists the same key (`RuleCompiler.UpdateKeepsUnionIff`,
  `RuleCompiler.DroppedKeyOutlivesSession`, `XdpProgram.DroppedPDRStillHandled`).
- A Create Bearer Response that rejects the message but accepts a context leaves a stored
  bearer whose rules were removed; contexts that echo one endpoint twice, or repeat an EBI,
  leave installed rules with no owner (`CreateBearer.SettledIffWellBehaved`). So does completing
  the procedure for a session that has lost its SGW-U binding: the rules are marked rolled back
  and nothing is sent (`CreateBearer.UnboundIsLost`). An accepted EBI already in use replaces the
  bearer that had it (`CreateBearer.EarlierBearersStayIff`).
- When every bearer context fails with cause zero, as an empty Cause element decodes, the PGW is
  told Accepted (`CreateBearer.AcceptedIffAllOrCauseless`).
- A Create Bearer body repeated under a new sequence number is answered under that number once;
  its retransmissions get the original number (`CreateBearerTxn.ReplySequenceIff`).
- A Modify Bearer with an incomplete eNodeB endpoint makes the FAR forward to its old endpoint
  (`ModifyBearer.MoveKeepsAgreementIff`). Two overlapping moves of one bearer, which the tracker
  admits when one of them is a sibling restore, can both be accepted and leave the FAR at the
  endpoint the bearer does not store (`ModifyBearerSteps.OverlappingMovesDisagree`).
- Two concurrent requests that differ only in TEID can get each other's cached response
  (`Retransmission.TwinsBreakAtMostOnce`); a reply sent after its handler returned is cached
  under TEID zero (`Retransmission.LateReplyProtectsIff`).
- After a long idle time the refill's 64-bit product wraps and the bucket refills without being
  charged (`DdnControl.RefillChargesIffFits`); the advertised retry delay is too short unless the
  rate divides a second (`DdnControl.RetryDelayIffRateDivides`).
- With settings near the 64-bit limits, adding earned tokens wraps and the bucket goes negative
  (`DdnControl.RefillKeepsTokensIff`).
- A queued session that moves to another MME escapes that MME's limit
  (`DelayedDdn.EnqueueKeepsLimitIff`).
- Concurrent creations can leave a subscriber's entry on an older session
  (`SessionManager.CreateKeepsNewestIff`); reusing a TEID freed in between leaves it unallocated
  (`SessionManager.ReuseKeepsCoherentIff`); a session restored without a PGW address and then
  registered elsewhere leaves a stale entry (`SessionManager.RegisterPGWKeepsCoherentIff`); so does
  one that registers elsewhere while a path notice for its old endpoint is being delivered
  (`SessionManager.NotePGWKeepsCoherentIff`).
- Allocating rule identifiers takes no snapshot, and snapshots reach the store only when flushed: a
  restart in between hands the same identifiers out again, which the SGW-U refuses while it holds
  the rules (`Sessions.PDRIdsDistinctIff`, `Sessions.CrashRepeatsIds`).
- A session being deleted comes back as recovering when a restart finds it not yet deleted in the
  store (`Sessions.DeletingIsFinalIff`).
- The comment on session creation speaks of IMSI and APN; the code, and the model, use IMSI and
  default bearer.
- A snapshot whose recorded PGW endpoint is not in canonical form is restored with a record that
  its index entry does not match (`SessionSnapshot.AnyListRestores`).
- A session's 32767th dedicated bearer gets PDR identifier zero, which Modify Bearer refuses, and
  the next one gets 1 (`Sessions.PDRIdsNonzeroIff`, `Sessions.PDRIdsDistinctIff`).

## Model

| member | source | states |
|---|---|---|
| InformationElements.ParseIEsLoop | internal/gtpv2/ie/ie.go:134-153 | the offset loop accepts and returns exactly what the recursive decoder does, every error included |
| InformationElements.ElementOctets | internal/gtpv2/ie/ie.go:124-132 | the octets of one element: type, length, instance in the lower half of its octet, value |
| InformationElements.ParseMarshalIEs | internal/gtpv2/ie/ie.go:124-153 | decoding undoes encoding for every list whose values fit the 16-bit length |
| InformationElements.MarshalParsedIEs | internal/gtpv2/ie/ie.go:124-153 | whatever the decoder accepts fits, is canonical, and re-encodes to the same number of octets |
| InformationElements.GroupedRoundTrip | internal/gtpv2/ie/ie.go:314-320 | a grouped element of any depth survives as soon as its outermost value fits: no inner length can overflow |
| InformationElements.ChildrenRoundTrip | internal/gtpv2/ie/ie.go:498-502 | the children of a group decode to exactly the trees that were put in, recursively |
| Messages.HeaderRoundTrip | internal/gtpv2/message/message.go:203-301 | every header variant decodes to itself with the length filled in, whatever follows the message |
| Messages.WireLayout | internal/gtpv2/message/message.go:264-301 | every octet of a message on the wire, in both header variants: flags, type, declared length, TEID, sequence number, priority, body |
| Messages.AcceptedIff | internal/gtpv2/message/message.go:203-256 | exactly which octets are a message: version 2, and as many as the header and the declared length need |
| Messages.MarshalHeaderBuffer | internal/gtpv2/message/message.go:264-301 | the buffer writes produce exactly the octets of the specification function |
| Messages.MarshalLoop | internal/gtpv2/message/message.go:304-321 | the loop rejects the first over-long element and an over-long message, else appends every encoding |
| Messages.MessageRoundTrip | internal/gtpv2/message/message.go:203-321 | whenever Marshal succeeds, Parse returns the same header and elements, and the message is as long as it declares |
| Messages.WellFormedRoundTrip | internal/gtpv2/message/message.go:203-321 | a well-formed header and element list come back unchanged apart from Length |
| Messages.GroupedMessageRoundTrip | internal/gtpv2/message/message.go:304-321 | grouped elements of any depth survive a whole message; the outermost length checks suffice |
| Messages.ParsedCanBeMarshalled | internal/gtpv2/message/message.go:383-396 | anything Parse accepts can be marshalled again under any sequence number, to the declared length |
| Messages.CloneChangesOnlySequence | internal/sgwc/s11/bearer_handler.go:2316-2323 | cloning a parsed response always succeeds and changes only the sequence number |
| Messages.CloneOfOwnMessage | internal/sgwc/s11/bearer_handler.go:2316-2323 | the clone of a message the gateway encoded is octet for octet what it would have encoded under the new number |
| Messages.ParseHeaderIgnoresRest | internal/gtpv2/message/message.go:203-256 | octets after the declared message do not influence the header |
| Messages.SplitFramesLoop | internal/gtpv2/message/message.go:399-429 | the offset loop terminates and returns exactly the specified split or error |
| Messages.SplitIffTiles | internal/gtpv2/message/message.go:399-429 | a payload splits into given frames if and only if they tile it, all flagged but the last |
| Messages.ChainRoundTrip | internal/gtpv2/message/message.go:399-429 | any nonempty chain of exact messages, flagged but for the last, splits back to itself |
| Messages.PiggybackSplitsIffExact | internal/gtpv2/message/message.go:327-350 | a piggybacked pair splits back into its two messages if and only if both are as long as they declare |
| Messages.SetPFlagChangesOnlyP | internal/gtpv2/message/message.go:327-350 | setting the P flag changes nothing else in the header |
| Messages.PiggybackIff | internal/gtpv2/message/message.go:327-350 | two messages can go out together if and only if both parse and neither is flagged; one bit of the first changes |
| Messages.TypesAreInverse | internal/gtpv2/message/message.go:52-103 | the request and response type tables are inverse to each other |
| Messages.ResponseIsNext | internal/gtpv2/message/message.go:52-103 | a response type is its request type plus one, for exactly nine procedures |
| Identifiers.TBCDRoundTrip | internal/gtpv2/ie/ie.go:527-554 | digit strings of every length survive TBCD |
| Identifiers.TBCDNibbles | internal/gtpv2/ie/ie.go:527-541 | each octet holds two digits, the earlier in its lower half; an odd last digit is filled up with ones |
| Identifiers.EncodeTBCDLoop | internal/gtpv2/ie/ie.go:527-541 | the nibble loop fills its buffer with the specified encoding |
| Identifiers.APNRoundTripIff | internal/gtpv2/ie/ie.go:569-605 | an APN survives if and only if it is empty, or its first label is nonempty and no label exceeds 255 octets |
| Identifiers.APNOctets | internal/gtpv2/ie/ie.go:569-584 | an APN is encoded label by label: length octet, characters, then what follows the dot |
| Identifiers.EncodeAPNLoop | internal/gtpv2/ie/ie.go:569-584 | the label scan produces the specified encoding |
| Identifiers.DecodeAPNLoop | internal/gtpv2/ie/ie.go:586-605 | the reading loop produces the specified decoding, truncated input included |
| Identifiers.PLMNRoundTripIff | internal/gtpv2/ie/ie.go:608-650 | an MCC and MNC survive if and only if they are three and two or three decimal digits |
| Identifiers.PLMNFilling | internal/gtpv2/ie/ie.go:608-630 | short codes are filled up with zeros, the MCC on the right and the MNC on the left; what is no digit counts as zero |
| Identifiers.PLMNNibbles | internal/gtpv2/ie/ie.go:608-630 | where each digit of MCC and MNC goes, and the filler of a two-digit MNC |
| Collision.RunKeepsPairs | internal/sgwc/collision/collision.go:105-187 | after any run live procedures are pairwise allowed in admission order: always by the permissive policy, by the strict one if permissive mode was never set |
| Collision.StrictBearersDisjoint | internal/sgwc/collision/collision.go:220-303 | strict mode: live non-exempt bearer procedures have known, disjoint EBI sets |
| Collision.AllowedIff | internal/sgwc/collision/collision.go:209-303 | exactly which procedure may start beside an active one, by procedure, EBIs and mode |
| Collision.StartsIff | internal/sgwc/collision/collision.go:121-164 | a request starts a procedure under the next identifier if and only if the mode set allows it beside every procedure still live |
| Collision.LiveIff | internal/sgwc/collision/collision.go:121-196 | a procedure is live if and only if it was updated within the timeout and not finished, and it is then as it was |
| Collision.DeleteSessionIsNewest | internal/sgwc/collision/collision.go:243-292 | a live Delete Session is always the newest entry |
| Collision.Tracker.Configure | internal/sgwc/collision/collision.go:105-119 | mode and timeout as given, strict and two minutes by default; live procedures stay |
| Collision.Tracker.SweepExpiredLocked | internal/sgwc/collision/collision.go:178-187 | in any iteration order exactly the entries older than the timeout are dropped, and counted |
| Collision.Tracker.Begin | internal/sgwc/collision/collision.go:121-164 | a request is admitted if and only if every live procedure allows it, whatever the iteration order; a rejection names one that does not |
| Collision.OverlapsEBIScan | internal/sgwc/collision/collision.go:294-303 | the nested scan finds a common EBI exactly when there is one |
| DdnControl.PerUESpacing | internal/sgwc/ddncontrol/state.go:171-244 | a send that is not high priority is at least the suppression interval after every earlier send to that UE, through whichever MMEs |
| DdnControl.ThrottledMMEIsSpared | internal/sgwc/ddncontrol/state.go:209-218 | over any run, once an MME has asked for throttling until some time and until its next notice, every low-priority notification for it before that time is suppressed |
| DdnControl.NoticeRemembered | internal/sgwc/ddncontrol/state.go:284-297 | an MME's throttling notice stays in force through every run until its next one |
| DdnControl.ThrottlingSparesOnlyLow | internal/sgwc/ddncontrol/state.go:209-228 | any other notification with a token left and its UE not contacted too recently is sent whatever its MME asked for |
| DdnControl.DecisionIff | internal/sgwc/ddncontrol/state.go:171-243 | suppress, send and delay, each if and only if: last send, throttling, tokens left after the refill, bypass, priority, control enabled |
| DdnControl.DecisionReports | internal/sgwc/ddncontrol/state.go:197-243 | the reason, the retry time, the bypass mark and the tokens before and after, for every action |
| DdnControl.DecisionRecords | internal/sgwc/ddncontrol/state.go:400-433 | whatever the action, the UE's last contact is recorded, a bypass is counted, and the throttling notice stays |
| DdnControl.ClassIff | internal/sgwc/ddncontrol/state.go:335-347 | high before low, and how unset and single-sided rule bounds match |
| DdnControl.NamesMatch | internal/sgwc/ddncontrol/state.go:444-447 | a rule's access point name matches as a whole, ignoring only the case of letters |
| DdnControl.CountersAreExact | internal/sgwc/ddncontrol/state.go:400-433 | each MME's and each UE's counters are exactly the numbers of its decisions, action by action |
| DdnControl.BypassCountIsExact | internal/sgwc/ddncontrol/state.go:400-406 | the bypass counter is exactly the number of high-priority sends while bypassing is on, with a token or without |
| DdnControl.TotalsAreDecisions | internal/sgwc/ddncontrol/state.go:400-433 | the totals over all MMEs and over all UEs both equal the number of decisions |
| DdnControl.RefillChargesIffFits | internal/sgwc/ddncontrol/state.go:377-386 | a refill charges clock time for its tokens, up to one nanosecond, if and only if the 64-bit product does not wrap |
| DdnControl.OverflowRefillsTwice | internal/sgwc/ddncontrol/state.go:377-386 | a wrapped product lets one bucket fill twice at one instant while its clock runs backwards |
| DdnControl.RefillKeepsTokensIff | internal/sgwc/ddncontrol/state.go:377-386 | for every 64-bit setting a refill leaves the tokens between zero and the burst if and only if it adds nothing or the sum fits in 64 bits; the bucket clock never passes the present |
| DdnControl.FullBucketWraps | internal/sgwc/ddncontrol/state.go:382-385 | one token added to a full bucket of the largest size makes it negative |
| DdnControl.RefillKeepsBucket | internal/sgwc/ddncontrol/state.go:349-387 | with a setting under which no sum can leave 64 bits, tokens stay between zero and the burst |
| DdnControl.RefillEarns | internal/sgwc/ddncontrol/state.go:349-387 | a refill adds the rate times the elapsed time, rounded down and cut off at the burst, and moves the clock by the time the tokens took |
| DdnControl.BucketInvariant | internal/sgwc/ddncontrol/state.go:171-244 | with such a setting tokens stay between zero and the burst, and the clock behind the present, at every point of every run |
| DdnControl.WindowBudget | internal/sgwc/ddncontrol/state.go:153-244 | over any stretch of a run, paid sends are covered by tokens drawn down and the rate times the clock time charged |
| DdnControl.RateLimit | internal/sgwc/ddncontrol/state.go:153-244 | paid sends to an MME since its bucket was created never exceed the burst plus the rate times the elapsed time plus one nanosecond per refill, none if the rate divides a second |
| DdnControl.ShortSpanFits | internal/sgwc/ddncontrol/state.go:377-386 | no refill wraps while the rate times the time since creation fits in 64 bits |
| DdnControl.SlidingRateLimit | internal/sgwc/ddncontrol/state.go:153-244 | after any decision, paid sends over any later stretch are at most burst + 1 plus the rate times its length and one nanosecond, and one nanosecond more per refill unless the rate divides a second |
| DdnControl.RetryDelayIffRateDivides | internal/sgwc/ddncontrol/state.go:389-398 | the advertised retry delay suffices for every bucket if and only if the rate divides a second |
| DdnControl.Controller.ClassifyLocked | internal/sgwc/ddncontrol/state.go:335-347 | high-priority rules are tried before low-priority ones, and only a match decides |
| DdnControl.Controller.MMELocked | internal/sgwc/ddncontrol/state.go:320-333 | a known MME's record, else a new one with a full bucket clocked now |
| DdnControl.Controller.UELocked | internal/sgwc/ddncontrol/state.go:435-442 | a known UE's record, else an empty one |
| DdnControl.Controller.RecordSentLocked | internal/sgwc/ddncontrol/state.go:400-413 | exactly the MME's and the UE's sent counters move, and the UE's last-send time |
| DdnControl.Controller.RecordSuppressedLocked | internal/sgwc/ddncontrol/state.go:415-423 | exactly the two suppressed counters move |
| DdnControl.Controller.RecordDelayedLocked | internal/sgwc/ddncontrol/state.go:425-433 | exactly the two delayed counters move |
| DdnControl.Controller.RefillMMELocked | internal/sgwc/ddncontrol/state.go:349-387 | only the one bucket changes, to the specified refill |
| DdnControl.Controller.AdmitLocked | internal/sgwc/ddncontrol/state.go:195-243 | decision, bucket and UE record of the specified decision, whose branches DecisionIff, DecisionReports and DecisionRecords state outright |
| DdnControl.Controller.DecideDDN | internal/sgwc/ddncontrol/state.go:153-244 | one call is one step of the machine whose runs ThrottledMMEIsSpared, PerUESpacing and the rate limits speak of, and returns its decision |
| DdnControl.Controller.MarkMMELowPriorityThrottled | internal/sgwc/ddncontrol/state.go:284-297 | one call is one throttling step |
| DelayedDdn.CountersAreExact | internal/sgwc/mmerestoration/handler.go:388-428 | after any run each per-MME counter is the number of queued entries for that MME, and the queue is within the global limit |
| DelayedDdn.EnqueueEffect | internal/sgwc/mmerestoration/handler.go:364-428 | a notification is taken if and only if its delay is positive and within the maximum age and it replaces its session's entry or finds room, by the entries themselves; firing takes exactly the one entry off |
| DelayedDdn.EnqueueKeepsLimitIff | internal/sgwc/mmerestoration/handler.go:388-411 | an enqueue keeps the per-MME limit unless, and only unless, it moves a queued session to an MME already full |
| DelayedDdn.PerMMELimit | internal/sgwc/mmerestoration/handler.go:388-428 | the per-MME limit holds throughout as long as a session always queues under one MME |
| DelayedDdn.MovedSessionExceedsLimit | internal/sgwc/mmerestoration/handler.go:388-411 | a session that moves gets past the limit |
| DelayedDdn.EntriesConserved | internal/sgwc/mmerestoration/handler.go:388-428 | every accepted entry is fired or replaced exactly once, or still queued |
| DelayedDdn.DelayedQueue.EnqueueDelayedDDN | internal/sgwc/mmerestoration/handler.go:364-412 | one call is one enqueue step, refused exactly as specified |
| DelayedDdn.DelayedQueue.FireDelayedDDN | internal/sgwc/mmerestoration/handler.go:414-428 | one call takes the session's entry off and counts its MME down |
| Retransmission.NoDuplicateHandlers | internal/gtpv2/transport/transport.go:258-358 | in every interleaving no key has two handlers running, and the in-flight set is exactly the running handlers' keys |
| Retransmission.VerdictMeans | internal/gtpv2/transport/transport.go:337-351 | in every reachable state a request is dropped only while a handler runs for it, and started only when none does and nothing unexpired is cached |
| Retransmission.ResentIsRecent | internal/gtpv2/transport/transport.go:258-295 | over any run, what a duplicate is answered with was stored under its key at most 30 seconds ago |
| Retransmission.StoreSweeps | internal/gtpv2/transport/transport.go:362-375 | storing leaves no expired entry, loses no other, and keeps the new one for 30 seconds |
| Retransmission.DuplicatesGetTheSameBytes | internal/gtpv2/transport/transport.go:258-295 | once a reply was sent, duplicates are dropped until it is stored and get identical bytes for the TTL, never a second handler, while no two in-flight keys differ only in TEID |
| Retransmission.FiledUnderOwnKeyIff | internal/gtpv2/transport/transport.go:466-479 | a response is sure to be filed under its request's key if and only if no other in-flight key differs from it only in TEID |
| Retransmission.TwinsBreakAtMostOnce | internal/gtpv2/transport/transport.go:466-479 | with two such keys one request is handled twice and the other gets the wrong response |
| Retransmission.LateReplyProtectsIff | internal/gtpv2/transport/transport.go:436-479 | a reply sent after its handler returned protects against duplicates if and only if the request's TEID is zero |
| Retransmission.Conn.CheckAndMarkInFlight | internal/gtpv2/transport/transport.go:337-351 | cached, dropped or started, and both tables after it, exactly as specified |
| Retransmission.Conn.StoreInboundCache | internal/gtpv2/transport/transport.go:362-375 | in any sweep order exactly the expired entries go, and the response is stored for the TTL |
| Retransmission.Conn.InFlightRetransmitKeyForResponse | internal/gtpv2/transport/transport.go:466-479 | the scan returns some matching in-flight key, or the key with TEID zero when there is none |
| Retransmission.Conn.Reply | internal/gtpv2/transport/transport.go:436-448 | a sent, parseable response is cached under a key the scan may return; otherwise nothing is |
| Checksum.CsumFold | ebpf/headers/csum.h:7-13 | four folds bring every 64-bit accumulator below 2^16 with its value modulo 65535 kept; the result is the complement |
| Checksum.IPv4Csum | ebpf/headers/csum.h:15-19 | the checksum does not depend on which congruent value the kernel helper returns |
| Checksum.ByteOrders | ebpf/headers/csum.h:15-19 | the sum over little-endian words determines the network-order sum |
| Checksum.StoredChecksumVerifies | ebpf/headers/csum.h:7-19 | with its field zeroed and then set, a header of any content sums to 0xFFFF in one's complement (RFC 1071 section 1) |
| RuleCompiler.CompileIsExact | internal/dataplane/bpf/compiler.go:71-192 | for every key the compiled rule is that of the last PDR covering it, and there is a rule if and only if some PDR covers it |
| RuleCompiler.CoversItsKey | internal/dataplane/bpf/compiler.go:224-241 | a PDR's rule is filed under its TEID and the interface of its side, S1-U for Access and S5/S8-U for Core; a PDR without TEID or side has none |
| RuleCompiler.FarByIDIsLast | internal/dataplane/bpf/compiler.go:77-81 | the FAR that counts is the last one listed under the identifier |
| RuleCompiler.ForwardingValue | internal/dataplane/bpf/compiler.go:249-328 | every field of a forwarding rule: egress, own address and peer by direction, counter, and the bearer's marking |
| RuleCompiler.NotForwardingValue | internal/dataplane/bpf/compiler.go:249-304 | which rules forward, drop or punt, by Apply Action, peer address, direction and drop reason |
| RuleCompiler.FaultlessSync | internal/dataplane/bpf/compiler.go:71-192 | installing adds exactly the session's rules to the shared map, removing takes exactly its keys away |
| RuleCompiler.UpdateKeepsUnionIff | internal/dataplane/bpf/compiler.go:57-61 | an update leaves the map equal to the union of the live sessions' rules if and only if it drops no key |
| RuleCompiler.RuleStaysUntilListed | internal/dataplane/bpf/compiler.go:71-192 | through every later run a rule stays in the map unchanged until some call's PDR list has its key |
| RuleCompiler.DroppedKeyOutlivesSession | internal/dataplane/bpf/compiler.go:63-67 | a key dropped by an update is still in the map, with its rule, after the session is removed |
| RuleCompiler.RunIsUnion | internal/dataplane/bpf/compiler.go:51-192 | over every run with disjoint sessions and no dropped keys, the incrementally edited map is that union |
| RuleCompiler.Compiler.InstallRuleIfChanged | internal/dataplane/bpf/compiler.go:194-222 | an unchanged rule is not written; success means the rule is in place, failure only follows a failed operation |
| RuleCompiler.Compiler.SyncRule | internal/dataplane/bpf/compiler.go:102-181 | one PDR's rule is installed, replaced or removed; an unknown FAR drops |
| RuleCompiler.Compiler.SyncRules | internal/dataplane/bpf/compiler.go:71-192 | the map after any pattern of failed operations; reported success means the whole effect of the rules CompileIsExact describes, and forwarding rules have counters |
| RuleCompiler.Compiler.InstallSession | internal/dataplane/bpf/compiler.go:51-61 | success means the session's rules are in the map and no other entry changed; the same code serves updates |
| RuleCompiler.Compiler.RemoveSession | internal/dataplane/bpf/compiler.go:63-67 | success means exactly the session's keys are gone |
| RuleCompiler.Compiler.FarIndex | internal/dataplane/bpf/compiler.go:77-81 | the lookup holds the last FAR of each identifier |
| XdpProgram.XdpRefinesDirectEvaluation | ebpf/xdp_sgw_gtpu.c:142-202 | over every proper run each fast-path packet gets the verdict and rewrite asked for by the FAR of the last PDR with its TEID on its side, and a packet of no live PDR is passed untouched |
| XdpProgram.ForwardedPacket | ebpf/xdp_sgw_gtpu.c:100-202 | a forwarded packet of a live session by its own bytes: interface, both addresses, TEID, payload and checksum, uplink and downlink |
| XdpProgram.NotForwardedPacket | ebpf/xdp_sgw_gtpu.c:181-202 | a packet of a live session is dropped, redirected or passed untouched, each if and only if its FAR says so |
| XdpProgram.MarkedDSCP | ebpf/xdp_sgw_gtpu.c:78-98 | which DSCP a bearer's packets get under every marking configuration |
| XdpProgram.ValueMeansEvaluation | internal/dataplane/bpf/compiler.go:249-328 | executing a compiled rule is evaluating the PDR and FAR it came from: forward, drop, pass, missing FAR, marking |
| XdpProgram.DroppedPDRStillHandled | internal/sgwu/pfcpserver/server.go:960-1013 | after an update that drops a PDR's key the program goes on treating its packets as before, through every later run in which no call lists that key |
| XdpProgram.RewrittenHeaderVerifies | ebpf/xdp_sgw_gtpu.c:110-114 | after the rewrite the IPv4 header sums to 0xFFFF for every packet and rule |
| XdpProgram.MarkingKeepsECN | ebpf/xdp_sgw_gtpu.c:78-98 | marking writes exactly the chosen DSCP and never the ECN bits |
| XdpProgram.RewrittenIsFastPath | ebpf/xdp_sgw_gtpu.c:100-140 | a rewritten frame carries the new addresses and TEID, keeps its payload and takes the fast path again |
| XdpProgram.RewrittenElsewhere | ebpf/xdp_sgw_gtpu.c:100-140 | the UDP checksum is cleared, both MAC addresses follow an agreeing route, and every other byte is as received |
| XdpProgram.FastPathIff | ebpf/xdp_sgw_gtpu.c:142-183 | exactly which frames take the fast path, header by header, and where the TEID is read |
| XdpProgram.Program.RewriteL3L4 | ebpf/xdp_sgw_gtpu.c:100-140 | the in-place writes produce exactly the specified frame |
| XdpProgram.Program.ApplyOuterDSCPMarking | ebpf/xdp_sgw_gtpu.c:78-98 | only the type-of-service byte changes, to the specified marking |
| XdpProgram.Program.TakesFastPath | ebpf/xdp_sgw_gtpu.c:148-179 | the guards accept exactly the specified packets |
| XdpProgram.Program.Run | ebpf/xdp_sgw_gtpu.c:142-202 | verdict, frame and counters are those of the specification |
| Sessions.PDRIdsDistinctIff | internal/sgwc/session/session.go:208-217 | over every run of allocations, snapshots, flushes and restarts, PDR identifiers are distinct and never 1 or 2 if and only if nothing is allocated after a restart that lost an allocation, and at most 32767 pairs are |
| Sessions.CrashRepeatsIds | internal/sgwc/sessioncheckpoint/writer.go:55-63 | an allocation, a snapshot not yet flushed, a restart and an allocation hand the same pair out twice |
| Sessions.UnsafeRepeats | internal/sgwc/session/restore.go:183-201 | whenever an allocation follows a restart that lost one, a pair is handed out again |
| Sessions.SafeRunsOn | internal/sgwc/session/session.go:208-217 | otherwise pairs run from 3 on without a gap, and the event log tells whether each snapshot is up to date |
| Sessions.PDRIdsNonzeroIff | internal/sgwc/session/session.go:208-217 | in every run the first 32766 pairs have no PDR identifier zero; when nothing is lost the next pair has one |
| Sessions.FARIdsDistinctIff | internal/sgwc/session/session.go:208-217 | FAR identifiers are distinct and above 2 if and only if nothing is allocated after a restart that lost an allocation |
| Sessions.RecoveredIdsAreNew | internal/sgwc/session/restore.go:183-201 | a counter recovered from stored identifiers repeats none of them as a FAR identifier, nor 1 or 2; nor as a PDR identifier while the stored ones are below 65534 |
| Sessions.RecoveredPDRsCanRepeat | internal/sgwc/session/restore.go:183-201 | past 16 bits the recovered PDR identifiers can be the default bearer's |
| Sessions.DeletingIsFinalIff | internal/sgwc/session/session.go:734-748 | over transitions, binding loss, reconciliation, MME restoration and restarts, a session being deleted never comes back if and only if every restart finds it deleted in the store |
| Sessions.TransitionsByTarget | internal/sgwc/session/session.go:734-748 | from where each state can be reached; deletion is final and nothing returns to pending |
| Sessions.ClearedFields | internal/sgwc/session/session.go:400-410 | a release takes the eNodeB endpoint from every bearer, records the activity and changes nothing else |
| Sessions.InvalidatedFields | internal/sgwc/session/session.go:416-440 | a session that lost its SGW-U has no binding and advertises no SGW-U endpoint; one without a binding is left alone, so losing it twice is losing it once |
| Sessions.SGWSession.AllocBearerRuleIDs | internal/sgwc/session/session.go:208-217 | the next identifiers of the sequence, and a counter two further on |
| Sessions.SGWSession.Transition | internal/sgwc/session/session.go:221-232 | the state changes exactly when the transition is valid |
| Sessions.SGWSession.ClearENBFTEIDs | internal/sgwc/session/session.go:400-410 | every bearer loses its eNodeB endpoint and keeps the rest, in any iteration order |
| Sessions.SGWSession.InvalidatePFCPBinding | internal/sgwc/session/session.go:416-440 | binding and SGW-U endpoints are cleared and the session recovers, unless it had no binding or is being deleted |
| SessionManager.RunIsCoherent | internal/sgwc/session/manager.go:73-499 | over every run of creation with eviction and TEID reuse, registration, path notices that find their session unmoved, and deletion, all six indexes and the TEID pool agree with the live sessions |
| SessionManager.CreateKeepsCoherent | internal/sgwc/session/manager.go:73-150 | creation keeps every index and the pool coherent |
| SessionManager.CreatedSession | internal/sgwc/session/manager.go:93-142 | the stored session has the requested IMSI and default bearer, the chosen S11 TEID and exactly that bearer; every scan of the TEID's list finds it, and only the session it collides with is gone |
| SessionManager.CreateKeepsNewestIff | internal/sgwc/session/manager.go:93-142 | the subscriber's entry stays a newest session if and only if the clock, read before the lock, is not behind a remaining session |
| SessionManager.ReuseKeepsCoherentIff | internal/sgwc/session/manager.go:74-83 | reusing an S11 TEID keeps the pool right if and only if a live session still uses it |
| SessionManager.DeleteKeepsCoherent | internal/sgwc/session/manager.go:424-441 | deletion keeps every index, the newest session and the pool coherent |
| SessionManager.DeletedSession | internal/sgwc/session/manager.go:424-441 | exactly the one session goes, a subscriber's entry on another session stays, and the TEID is given back if and only if no other session shares it |
| SessionManager.RemovedCoherent | internal/sgwc/session/manager.go:443-484 | removal leaves no index with a stale or missing entry, whatever the iteration order |
| SessionManager.RegisterS5CKeepsCoherentIff | internal/sgwc/session/manager.go:256-267 | registering a fresh S5/S8-C TEID keeps that index right if and only if the session has none yet |
| SessionManager.RegisterPGWKeepsCoherentIff | internal/sgwc/session/manager.go:270-290 | registering a PGW keeps that index right except, and only except, for a session indexed by its control endpoint alone and now registered elsewhere |
| SessionManager.SetPGWControlKeepsCoherentIff | internal/sgwc/session/session.go:271-277 | likewise for a new control endpoint |
| SessionManager.NotePGWKeepsCoherentIff | internal/sgwc/session/manager.go:308-324 | recording a collected path or restart notice keeps the PGW index coherent if and only if the session is still indexed under that endpoint |
| SessionManager.MovedBeforeItsNotice | internal/sgwc/session/manager.go:308-324 | a session that registers elsewhere between collection and recording ends up indexed where it does not say |
| SessionManager.StepKeepsCoherent | internal/sgwc/session/manager.go:73-499 | one step from any coherent store, a restored one included |
| SessionManager.ScanIsComplete | internal/sgwc/session/manager.go:187-211 | a scan of a TEID's list finds a session if and only if a live one of that TEID qualifies |
| SessionManager.BearersDecideOwner | internal/sgwc/session/session.go:337-346 | storing or deleting bearers changes who owns a bearer for the one session, and no list |
| SessionManager.SameEndpointIff | internal/sgwc/session/manager.go:557-569 | two endpoint texts are the same endpoint if and only if their hosts are |
| SessionManager.Manager.CreateSession | internal/sgwc/session/manager.go:73-150 | the new identifier maps to a session with the requested IMSI and default bearer, the chosen S11 TEID and exactly that bearer, which every S11 lookup finds; the whole new state, the evicted session, and no change when allocation or identifier generation fails |
| SessionManager.Manager.DeleteSession | internal/sgwc/session/manager.go:424-441 | the whole new state of a deletion |
| SessionManager.Manager.RemoveLocked | internal/sgwc/session/manager.go:443-484 | the whole new state of a removal, the fallback being some newest session |
| SessionManager.Manager.NewestOf | internal/sgwc/session/manager.go:472-479 | the scan returns a newest session of the subscriber in any iteration order |
| SessionManager.Manager.RemovePGWLocked | internal/sgwc/session/manager.go:486-499 | only the session's entry under that endpoint goes, and an emptied endpoint with it |
| SessionManager.RemovedBeforeIndexing | internal/sgwc/s11/handler.go:777-778 | a session removed between storing its TEID and indexing it leaves the indexes as if it had stored none |
| SessionManager.Manager.SetSGWS5CFTEID | internal/sgwc/session/session.go:263-269 | the session stores the TEID, and no index changes |
| SessionManager.Manager.RegisterS5CTEID | internal/sgwc/session/manager.go:256-267 | indexes the TEID for a known session, and changes nothing else |
| SessionManager.Manager.RegisterPGWEndpoint | internal/sgwc/session/manager.go:270-290 | moves the session's entry to the canonical endpoint and records it |
| SessionManager.Manager.FindByPGW | internal/sgwc/session/manager.go:293-306 | exactly the sessions indexed under the canonical endpoint |
| SessionManager.Manager.SetPGWPathState | internal/sgwc/session/session.go:529-547 | one collected session records the endpoint |
| SessionManager.Manager.FindByS11TEID | internal/sgwc/session/manager.go:175-183 | the last listed session |
| SessionManager.Manager.FindByS11TEIDAndBearer | internal/sgwc/session/manager.go:187-197 | the last listed session that owns the bearer; none only when no session of the TEID does |
| SessionManager.Manager.FindByS11TEIDAndDefaultBearer | internal/sgwc/session/manager.go:201-211 | the last listed session with that default bearer; none only when no session of the TEID has it |
| SessionSnapshot.SessionRoundTrip | internal/sgwc/session/restore.go:100-152 | a snapshot brings back every durable field of a session and its bearers, with the state recovering |
| SessionSnapshot.RestoredExactIff | internal/sgwc/session/restore.go:114-160 | nothing durable but the state changes if and only if no filter is empty and times and rule counter are set |
| SessionSnapshot.BearerRoundTrip | internal/sgwc/session/restore.go:154-181 | every bearer field comes back, an empty filter as none |
| SessionSnapshot.MMERestorationRoundTrip | internal/sgwc/session/snapshot.go:121-153 | every restoration field comes back |
| SessionSnapshot.SortedBearers | internal/sgwc/session/snapshot.go:14-28 | collecting and sorting the EBIs lists each bearer once, in ascending order |
| SessionSnapshot.RestoreBringsBackAll | internal/sgwc/session/restore.go:24-98 | restoring a coherent store's snapshots, in any order, restores every session without error or loss and rebuilds coherent indexes |
| SessionSnapshot.AnyListRestores | internal/sgwc/session/restore.go:24-98 | from any list of snapshots that ends in no collision exactly the wanted ones come back, every snapshot and TEID counted once; the indexes are coherent if and only if each wanted one records its PGW endpoint canonically |
| SessionSnapshot.RestoreOneIff | internal/sgwc/session/restore.go:33-86 | one snapshot is restored, refused for a collision, or counted as deleted or invalid, each exactly when its own fields say so |
| SessionSnapshot.BearerMapIff | internal/sgwc/session/restore.go:100-112 | stored bearers are accepted if and only if their EBIs are nonzero and distinct |
| SessionSnapshot.RestoredIdsAreNew | internal/sgwc/session/restore.go:183-201 | the first FAR identifiers given out after a restore without a stored counter belong to no restored bearer |
| SessionSnapshot.EndpointParts | internal/sgwc/session/manager.go:557-569 | an endpoint text is split at its colon if it has just one, and is all host otherwise |
| SessionSnapshot.ReservedAreUsed | internal/sgwc/session/restore.go:81-83 | afterwards the reserved S11 TEIDs are exactly those the sessions use |
| SessionSnapshot.AddKeepsCoherent | internal/sgwc/session/restore.go:55-83 | adding one restored session keeps every index coherent, the newest session included |
| SessionSnapshot.FirstErrorWins | internal/sgwc/session/restore.go:38-49 | the first duplicate ends the restore |
| SessionSnapshot.Store.RestoreSnapshots | internal/sgwc/session/restore.go:24-98 | on success the store is replaced, on an error it is left as it was |
| Addresses.DottedRoundTrip | internal/sgwc/session/restore.go:268-277 | an IPv4 address printed and parsed again is itself |
| Addresses.DottedText | internal/sgwc/session/restore.go:268-277 | the text is four decimal numbers, most significant octet first |
| CreateBearer.SettledIffWellBehaved | internal/sgwc/s11/bearer_handler.go:519-673 | under every pattern of SGW-U outcomes each provisional rule set ends owned by one stored active bearer or removed once, if and only if the response pairs its contexts one to one with distinct EBIs, a rejection accepts none, and the session is bound to its SGW-U whenever a removal is due |
| CreateBearer.WellBehavedSettles | internal/sgwc/s11/bearer_handler.go:519-673 | the positive half, for one pattern of outcomes |
| CreateBearer.UnboundIsLost | internal/sgwc/s11/bearer_handler.go:1875-1890 | when the session is unbound at a removal, a rule set stays installed with no owner and nothing asks for its removal |
| CreateBearer.UnboundCompletionLoses | internal/sgwc/s11/bearer_handler.go:1892-1923 | one accepted context for a session that lost its binding meanwhile: marked rolled back, removal never sent |
| CreateBearer.RemovalsAfter | internal/sgwc/s11/bearer_handler.go:1892-1940 | what is asked to be removed was marked, and asked by a step that found the session bound |
| CreateBearer.EarlierBearersStayIff | internal/sgwc/s11/bearer_handler.go:601-631 | every earlier bearer keeps its place under every pattern of outcomes if and only if no acceptable context names an EBI in use |
| CreateBearer.RejectedYetCommitted | internal/sgwc/s11/bearer_handler.go:541-547 | a rejecting response that accepts a context leaves a rule set both stored and removed |
| CreateBearer.UnpairedIsLost | internal/sgwc/s11/bearer_handler.go:571-584 | contexts that clash leave a rule set installed with no owner |
| CreateBearer.OverwrittenIsLost | internal/sgwc/s11/bearer_handler.go:601-631 | two accepted contexts with one EBI leave the earlier rule set behind |
| CreateBearer.CommittedBearerFields | internal/sgwc/s11/bearer_handler.go:601-631 | whatever the rest of the response says, the last context to commit under an EBI stores every field of the MME's answer and of the rule set whose S1-U endpoint it echoes, or that stands at its position |
| CreateBearer.EchoDecidesOwner | internal/sgwc/s11/bearer_handler.go:571-649 | when nothing clashes, the rule set a context speaks of is owned by the bearer under its EBI and no other if the context was accepted with an endpoint, the session is bound and the SGW-U took it; else by none, its removal asked once if still bound |
| CreateBearer.RejectionRemovesAll | internal/sgwc/s11/bearer_handler.go:541-547 | a rejecting message that accepts no context leaves every rule set unowned and its removal asked once if bound |
| CreateBearer.MatchIsSpoken | internal/sgwc/s11/bearer_handler.go:571-584 | the looked-up rule set is the first with the echoed S1-U TEID, or the one at the context's position if it echoes none or an unknown one |
| CreateBearer.OutCauseTellsOutcome | internal/sgwc/s11/bearer_handler.go:640-656 | the PGW is told the MME's own cause, Partial or the first nonzero failure as all, some or none succeed, with one exception |
| CreateBearer.AcceptedIffAllOrCauseless | internal/sgwc/s11/bearer_handler.go:640-656 | the PGW is told Accepted if and only if all contexts succeed or all carry cause zero |
| CreateBearer.PairedIffCovered | internal/sgwc/s11/bearer_handler.go:571-584 | contexts match different rule sets if and only if every rule set is matched |
| CreateBearer.Completion.CompleteFromResponse | internal/sgwc/s11/bearer_handler.go:519-673 | the loop's whole effect on bearers and rollbacks, and the causes sent |
| CreateBearer.Completion.CompleteContext | internal/sgwc/s11/bearer_handler.go:553-649 | the effect of one context in every branch |
| CreateBearer.Completion.RemoveProvisioning | internal/sgwc/s11/bearer_handler.go:1925-1940 | a rule set is marked once, and its removal sent only when the session is bound |
| CreateBearer.Completion.RemoveAllProvisioning | internal/sgwc/s11/bearer_handler.go:1892-1923 | every unmarked rule set is marked, and their removal sent in one request when the session is bound |
| CreateBearer.Completion.FindMatch | internal/sgwc/s11/bearer_handler.go:571-584 | the first rule set whose S1-U TEID is echoed, else the one at the position, as SpeaksOf says |
| CreateBearerTxn.ProvisionedOncePerKeyAndBody | internal/sgwc/s11/bearer_handler.go:2085-2131 | under every interleaving provisioning is started, whether or not it succeeds, at most once per transaction key and per body fingerprint |
| CreateBearerTxn.ActionMeans | internal/sgwc/s11/bearer_handler.go:2085-2131 | over any run a request is new if and only if neither its key was requested before nor its body is known; the key comes first, and cached means answered |
| CreateBearerTxn.AnsweredIsRepeated | internal/sgwc/s11/bearer_handler.go:2067-2083 | once answered, a request repeated under its own key gets the same bytes for the rest of the run |
| CreateBearerTxn.AnsweredOrTimedOutOnce | internal/sgwc/s11/bearer_handler.go:457-507 | a pending piggybacked request is completed or expired, never both and never twice |
| CreateBearerTxn.WaitingIsPending | internal/sgwc/s11/bearer_handler.go:429-455 | a registered request stays pending until a response or the timer takes it |
| CreateBearerTxn.AnswersAreStable | internal/sgwc/s11/bearer_handler.go:2407-2425 | a key stands for one transaction for good, and its response once set never changes |
| CreateBearerTxn.ReplySequenceIff | internal/sgwc/s11/bearer_handler.go:2067-2113 | a cached answer carries the request's sequence number if and only if the request is the original or a first repetition of its body |
| CreateBearerTxn.SecondRepeatMissesSequence | internal/sgwc/s11/bearer_handler.go:2067-2113 | the retransmission of a repeated body gets the original sequence number |
| CreateBearerTxn.RunKeepsInv | internal/sgwc/s11/bearer_handler.go:429-517 | maps, pending entries, logs and responses agree with the transactions in every reachable state |
| CreateBearerTxn.Transactions.BeginCreateBearerTxn | internal/sgwc/s11/bearer_handler.go:2085-2131 | new, pending, cached, by key or by fingerprint, and the maps after it |
| CreateBearerTxn.Transactions.StartProvisioning | internal/sgwc/s11/bearer_handler.go:364-368 | the handler of a transaction that has done nothing yet turns to the SGW-U |
| CreateBearerTxn.Transactions.MarkProvisioned | internal/sgwc/s11/bearer_handler.go:2346-2361 | the transaction is marked provisioned after the SGW-U's answer |
| CreateBearerTxn.RegisterKeepsPendingsIff | internal/sgwc/s11/bearer_handler.go:429-455 | registering keeps every waiting request pending if and only if its S11 key is free |
| CreateBearerTxn.Transactions.RegisterPendingS11CreateBearer | internal/sgwc/s11/bearer_handler.go:429-455 | the entry is filed under its key, replacing any there |
| CreateBearerTxn.Transactions.PopPendingS11CreateBearer | internal/sgwc/s11/bearer_handler.go:457-480 | the entry is taken by the first of response and timer |
| CreateBearerTxn.Transactions.CompleteCreateBearerTxn | internal/sgwc/s11/bearer_handler.go:2407-2425 | the response is stored in the one transaction of the key |
| ModifyBearer.RunKeepsAgreement | internal/sgwc/s11/handler.go:1163-1226 | over every run of Modify Bearer with complete endpoints, sibling restore and Release Access Bearers, one request at a time under any PFCP failures, a downlink FAR forwards only to the endpoint stored on its bearer |
| ModifyBearer.MoveKeepsAgreementIff | internal/sgwc/s11/handler.go:1163-1226 | moving a bearer keeps agreement if and only if the endpoint is complete, or the move fails, or the FAR had no endpoint or this very one |
| ModifyBearer.ContextOutcome | internal/sgwc/s11/handler.go:1116-1250 | a context not accepted changes no session; an accepted one, default bearer or not, is stored and is where the packets go |
| ModifyBearer.ContextAcceptedIff | internal/sgwc/s11/handler.go:1116-1226 | a context is accepted if and only if it carries an endpoint, its session is bound and the SGW-U is reached and has the bearer's own FAR, or FAR 2 of a default bearer without rule identifiers; each error cause likewise |
| ModifyBearer.SiblingsFollow | internal/sgwc/s11/handler.go:1247-1249 | after an accepted context for the default bearer every listed bearer not named, not being deleted and reached stores the endpoint and forwards there; every other bearer and session is unchanged |
| ModifyBearer.FollowKeepsDefault | internal/sgwc/s11/handler.go:1358-1427 | restoring siblings leaves the default bearer and its FAR alone |
| ModifyBearer.RestoredSiblings | internal/sgwc/s11/handler.go:1358-1427 | restoring gives each bearer that is to follow the endpoint and a FAR that forwards there, and no other bearer anything |
| ModifyBearer.FollowKeepsAgreement | internal/sgwc/s11/handler.go:1358-1427 | restoring siblings keeps agreement in any order, whatever fails |
| ModifyBearer.ClearedAgrees | internal/sgwc/s11/handler.go:1806-1809 | after an accepted release no downlink FAR forwards and no endpoint is stored |
| ModifyBearer.ReleaseKeepsSound | internal/sgwc/s11/handler.go:1767-1809 | a release keeps agreement wherever it stops; endpoints are cleared only when every session succeeded |
| ModifyBearer.ReleaseOutcome | internal/sgwc/s11/handler.go:1767-1809 | endpoints go if and only if every session's SGW-U part can be done; FARs drop in exactly the sessions before the first that cannot |
| ModifyBearer.DropsStopForwarding | internal/sgwu/pfcpserver/server.go:1195-1265 | drop updates put exactly the named FARs at DROP, remembering which forwarded to the access side, and touch no other |
| ModifyBearer.StepKeepsSound | internal/sgwc/s11/handler.go:1163-1226 | one step keeps every session's FARs distinct and in agreement |
| ModifyBearer.Handler.MoveBearer | internal/sgwc/s11/handler.go:1163-1226 | stores the endpoint and takes it back unless the SGW-U follows |
| ModifyBearer.Handler.RestoreSiblingBearers | internal/sgwc/s11/handler.go:1358-1427 | exactly the listed bearers not named, not default, not being deleted and reached store the endpoint and forward there |
| ModifyBearer.Handler.FindOwner | internal/sgwc/session/manager.go:187-197 | the last session of the UE that owns the bearer |
| ModifyBearer.Handler.ModifyContext | internal/sgwc/s11/handler.go:1116-1250 | sessions and cause after one context, error branches included; ContextAcceptedIff, ContextOutcome and SiblingsFollow say outright what they are |
| ModifyBearer.Handler.ModifyBearerRequest | internal/sgwc/s11/handler.go:1116-1338 | sessions and per-bearer causes of a whole request, context by context; accepted if any context was or there was none, else the first cause |
| ModifyBearer.Handler.FARUpdates | internal/sgwc/s11/handler.go:1722-1736 | one drop update per bearer, or none when a bearer lacks rule identifiers |
| ModifyBearer.Handler.DropSession | internal/sgwc/s11/handler.go:1767-1804 | the SGW-U part for one session, and whether it succeeded |
| ModifyBearer.Handler.ReleaseAccessBearersRequest | internal/sgwc/s11/handler.go:1767-1809 | sessions after a release that stops at the first failure, and whether it is accepted |
| ModifyBearerSteps.InterleavedRunAgrees | internal/sgwc/s11/handler.go:1163-1226 | however the store, apply and take-back steps of concurrent requests interleave, as long as no bearer is moved twice at once: every bearer not being moved forwards only to its stored endpoint, and a session at rest agrees |
| ModifyBearerSteps.DisciplinedIsConsistent | internal/sgwc/s11/handler.go:1383-1403 | meanwhile a bearer being moved stores the new endpoint and its FAR is at the old one until the update is applied |
| ModifyBearerSteps.StepKeepsConsistent | internal/sgwc/s11/handler.go:1163-1226 | one step of any request, release or binding loss |
| ModifyBearerSteps.StepsMakeAMove | internal/sgwc/s11/handler.go:1163-1226 | steps that nothing comes between make the move in one piece, and a move taken back leaves no trace |
| ModifyBearerSteps.StepsMakeARelease | internal/sgwc/s11/handler.go:1767-1809 | and likewise the release |
| ModifyBearerSteps.OverlappingMovesDisagree | internal/sgwc/s11/handler.go:1383-1403 | two overlapping moves of one bearer can both be accepted and leave the FAR forwarding where the bearer is not |
| ModifyBearerSteps.TrackerAdmitsSiblingMove | internal/sgwc/collision/collision.go:243-292 | the tracker admits two requests that name different bearers, though one also moves its siblings |
| ModifyBearerSteps.TrackerIsolatesRelease | internal/sgwc/collision/collision.go:243-292 | the tracker lets neither a move nor another release in beside a release |

## Left out

- SessionManager.Manager.CreateSession: works on session values keyed by identifier instead of shared references, so aliasing of session objects between indexes is not captured; identifiers are assumed new.
- SessionManager.RunIsCoherent: takes the handler's store-then-index of an S5/S8-C TEID as one event; removal in between is covered by RemovedBeforeIndexing.
- CreateBearer.Completion.CompleteFromResponse: starts from a response that passed validation, and records a removal request once when it is sent, whether or not the SGW-U then honours it; the message built for the PGW is represented by its causes. The direct path of handleCreateBearer processes contexts the same way and is not modelled twice.
- CreateBearerTxn.ProvisionedOncePerKeyAndBody: takes the body hash as injective; the retry guard and the collision check, which only reply, are not steps of the model.
- Retransmission.DuplicatesGetTheSameBytes: assumes each handler replies at most once; outbound transactions are not modelled.
- ModifyBearer.RunKeepsAgreement: takes requests one at a time; interleaved requests are the subject of ModifyBearerSteps. Takes a PFCP modification as all or nothing, so a fast-path map half updated before a failure, or a lost acceptance, is not covered; activity times and usage reports are left out.
- ModifyBearerSteps.InterleavedRunAgrees: takes one session at a time, and a move that fails as never applied, so a lost acceptance is not covered.
- DdnControl.RateLimit: is stated for runs whose refills do not wrap, with the exact condition per refill and a bound on the span; takes the floating-point product as an exact floor, and its conversion beyond 64 bits as amd64 does it; counters are unbounded integers; decision texts are reduced to an enumeration.
- DelayedDdn.DelayedQueue.FireDelayedDDN: stops where the queue lock is released; what happens to the notification then is not modelled, and no total delay is claimed, since queuing again restarts the age.
- RuleCompiler.RunIsUnion: assumes every map operation succeeds; failed operations are covered call by call in SyncRules. Outer addresses are IPv4.
- XdpProgram.Program.Run: reads counters and rules as plain maps; the route lookup is a parameter, per-CPU copies and counter wrap-around are left out.
- SessionSnapshot.RestoreBringsBackAll: takes the store between save and load as lossless; endpoint texts with bracketed IPv6 hosts are not split.
- Collision.RunKeepsPairs: holds for runs shorter than the 64-bit identifier space.
- Identifiers.TBCDRoundTrip: covers the ten decimal digits; other characters are outside the promise.
- Messages.SplitFramesLoop: leaves out a second length check that the header parser makes unreachable.
- Messages.SetPFlagChangesOnlyP: says nothing of the version-not-supported and invalid-length replies, which are not modelled.
- HTTP API, metrics, command line, configuration loading, SQLite and JSON encoding, loading and attaching the XDP program.
- PFCP and its transport: the codec has the shape of the GTPv2-C one.
- Peer health, bearer inactivity policy, idle downlink handling and reconciliation plans: mostly single decisions.
- Update Bearer and Delete Bearer procedures, and forwarding of usage reports to the PGW.
