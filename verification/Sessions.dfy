/**
 * Session and bearer state of the SGW-C (internal/sgwc/session/session.go,
 * internal/sgwc/bearer/bearer.go). Time zero stands for Go's zero time.
 */
module Sessions {
  import opened Wrappers
  import opened Bytes
  import opened Addresses

  type u64 = x: int | 0 <= x < 0x1_0000_0000_0000_0000

  datatype FTEID = FTEID(teid: u32, ipv4: Option<IPv4>)

  datatype FSEID = FSEID(seid: u64, ipv4: Option<IPv4>)

  const NO_FTEID: FTEID := FTEID(0, None)

  datatype ARP = ARP(priorityLevel: byte, preemptionCapability: bool, preemptionVulnerability: bool)

  datatype Bearer = Bearer(
    ebi: byte, qci: byte, arp: ARP,
    enbS1U: FTEID, sgwS1U: FTEID, pgwS5U: FTEID, sgwS5U: FTEID,
    mbrUplink: u64, mbrDownlink: u64, gbrUplink: u64, gbrDownlink: u64,
    tft: Option<seq<byte>>, state: string,
    pdrUL: u32, pdrDL: u32, farUL: u32, farDL: u32,
    lastControlActivityAt: int, lastUserPlaneActivityAt: int, lastActivitySource: string,
    inactiveSince: int, cleanupEligible: bool)

  datatype PFCPBinding = PFCPBinding(local: FSEID, sgwu: FSEID, sgwuName: string, sgwuAddr: string, established: bool)

  const NO_BINDING: PFCPBinding := PFCPBinding(FSEID(0, None), FSEID(0, None), "", "", false)

  datatype PFCPReconciliation = PFCPReconciliation(state: string, at: int, reason: string)

  datatype PGWFailure = PGWFailure(
    pathState: string, pgwAddr: string, pathDownAt: int, restartDetectedAt: int, recoverySeen: bool, recoveryCounter: byte)

  datatype MMERestoration = MMERestoration(
    state: string, mmeAddr: string, pathDownAt: int, restartDetectedAt: int,
    recoverySeen: bool, recoveryCounter: byte, restorationPending: bool,
    policyAction: string, policyReason: string,
    ddnTriggered: bool, ddnTriggeredAt: int, ddnSequence: u32,
    ddnAcked: bool, ddnAckedAt: int, ddnAckCause: byte,
    ddnFailureAt: int, ddnFailureCause: byte, ddnFailureReason: string,
    ddnControlAction: string, ddnControlPriority: string, ddnControlReason: string,
    ddnControlRetryAt: int, ddnControlDecidedAt: int,
    stopPagingSent: bool, stopPagingSentAt: int, stopPagingSequence: u32,
    userPlaneRestored: bool, userPlaneRestoredAt: int, restoredEBI: byte)

  /** The usage reports are not durable: a snapshot leaves them out. */
  datatype Session = Session(
    id: string, imsi: string, apn: string, ratType: byte, servingNetwork: string,
    mmeControl: FTEID, sgwS11: FTEID, pgwControl: FTEID, sgwS5C: FTEID,
    ueIPv4: Option<IPv4>, defaultBearerID: byte, bearers: map<byte, Bearer>,
    pfcp: PFCPBinding, reconciliation: PFCPReconciliation, pgwFailure: PGWFailure, mmeRestoration: MMERestoration,
    usageReports: seq<seq<byte>>,
    state: string, createdAt: int, updatedAt: int, nextRuleID: u32)

  const PENDING := "pending"
  const ACTIVE := "active"
  const MODIFYING := "modifying"
  const RECOVERING := "recovering"
  const DELETING := "deleting"
  const DELETED := "deleted"

  function ValidTransition(from: string, to: string): bool {
    (from == PENDING && to in {ACTIVE, RECOVERING, DELETING, DELETED}) ||
    (from == ACTIVE && to in {MODIFYING, RECOVERING, DELETING}) ||
    (from == MODIFYING && to in {ACTIVE, RECOVERING, DELETING}) ||
    (from == RECOVERING && to in {ACTIVE, DELETING, DELETED}) ||
    (from == DELETING && to == DELETED)
  }

  // ---- Rule identifiers -------------------------------------------------------

  datatype RuleIds = RuleIds(pdrUL: u16, pdrDL: u16, farUL: u32, farDL: u32)

  /** Identifiers from a base: the PDR identifiers keep only 16 bits. */
  function IdsFrom(base: u32): RuleIds {
    var second := (base + 1) % 0x1_0000_0000;
    RuleIds(base % 0x1_0000, second % 0x1_0000, base, second)
  }

  function BaseOf(next: u32): u32 {
    if next == 0 then 3 else next
  }

  function NextAfter(next: u32): u32 {
    (BaseOf(next) + 2) % 0x1_0000_0000
  }

  function MaxOf(ids: seq<u32>, floor: u32): u32 {
    if ids == [] then floor
    else
      var m := MaxOf(ids[..|ids| - 1], floor);
      if ids[|ids| - 1] > m then ids[|ids| - 1] else m
  }

  /** After a restore: the stored counter, or one past the largest stored identifier. */
  function RecoveredNext(next: u32, stored: seq<u32>): u32 {
    if next != 0 then next else (MaxOf(stored, 2) + 1) % 0x1_0000_0000
  }

  lemma {:induction false} MaxIsBound(ids: seq<u32>, floor: u32)
    ensures MaxOf(ids, floor) >= floor
    ensures forall id :: id in ids ==> id <= MaxOf(ids, floor)
    ensures MaxOf(ids, floor) == floor || MaxOf(ids, floor) in ids
  {
    if ids != [] {
      MaxIsBound(ids[..|ids| - 1], floor);
      assert ids == ids[..|ids| - 1] + [ids[|ids| - 1]];
    }
  }

  /**
   * A counter recovered from stored identifiers alone hands out no FAR identifier in use, nor
   * 1 or 2; PDR identifiers follow suit as long as the stored ones stay clear of 16 bits.
   */
  lemma RecoveredIdsAreNew(stored: seq<u32>)
    requires forall id :: id in stored ==> id <= 0xFFFF_FFFD
    ensures var ids := IdsFrom(BaseOf(RecoveredNext(0, stored)));
            && ids.farUL !in stored && ids.farDL !in stored && ids.farUL > 2 && ids.farDL == ids.farUL + 1
            && ((forall id :: id in stored ==> id <= 0xFFFD) ==>
                 ids.pdrUL !in stored && ids.pdrDL !in stored && 2 < ids.pdrUL < ids.pdrDL)
  {
    MaxIsBound(stored, 2);
  }

  /** Past that point the narrowed identifiers can repeat stored ones, or the default bearer's. */
  lemma RecoveredPDRsCanRepeat()
    ensures var ids := IdsFrom(BaseOf(RecoveredNext(0, [1, 2, 0x1_0000]))); ids.pdrUL == 1 && ids.pdrDL == 2
  {
    assert [1, 2, 0x1_0000][..2] == [1, 2] && [1, 2][..1] == [1] && [1][..0] == [];
    assert MaxOf([1, 2], 2) == 2;
  }

  /** What a snapshot keeps of the allocator: the counter, and the identifiers of the stored bearers. */
  datatype Durable = Durable(next: u32, stored: seq<u32>)

  function Recover(d: Durable): u32 {
    RecoveredNext(d.next, d.stored)
  }

  /**
   * Allocation takes no snapshot; other session changes take one, which reaches the store only
   * when the writer flushes. A restart begins again from what the store holds.
   */
  datatype RuleEvent = Allocate | TakeSnapshot(stored: seq<u32>) | Flush | Restart

  datatype RuleState = RuleState(next: u32, handedOut: seq<RuleIds>, pending: Durable, saved: Durable)

  function RuleStep(s: RuleState, e: RuleEvent): RuleState {
    match e
    case Allocate => s.(next := NextAfter(s.next), handedOut := s.handedOut + [IdsFrom(BaseOf(s.next))])
    case TakeSnapshot(stored) => s.(pending := Durable(s.next, stored))
    case Flush => s.(saved := s.pending)
    case Restart => s.(next := Recover(s.saved), pending := s.saved)
  }

  /** A session starts with its creation already in the store. */
  function RuleRun(es: seq<RuleEvent>): RuleState {
    if es == [] then RuleState(0, [], Durable(0, []), Durable(0, [])) else RuleStep(RuleRun(es[..|es| - 1]), es[|es| - 1])
  }

  predicate Known(ids: seq<RuleIds>, id: u32) {
    id <= 2 || exists k :: 0 <= k < |ids| && id in {ids[k].pdrUL, ids[k].pdrDL, ids[k].farUL, ids[k].farDL}
  }

  ghost predicate AllKnown(ids: seq<RuleIds>, stored: seq<u32>) {
    forall id :: id in stored ==> Known(ids, id)
  }

  /** Bearers in a snapshot carry the default identifiers or ones handed out before it. */
  ghost predicate LegalRules(es: seq<RuleEvent>) {
    es == [] ||
    (LegalRules(es[..|es| - 1]) &&
     (es[|es| - 1].TakeSnapshot? ==> AllKnown(RuleRun(es[..|es| - 1]).handedOut, es[|es| - 1].stored)))
  }

  // What a reader of the event log can tell.

  /** No allocation since the snapshot waiting to be flushed was taken. */
  predicate PendingFresh(es: seq<RuleEvent>) {
    es == [] ||
    match es[|es| - 1]
    case Allocate => false
    case TakeSnapshot(_) => true
    case Flush => PendingFresh(es[..|es| - 1])
    case Restart => true
  }

  /** No allocation since the snapshot in the store was taken. */
  predicate SavedFresh(es: seq<RuleEvent>) {
    es == [] ||
    match es[|es| - 1]
    case Allocate => false
    case TakeSnapshot(_) => SavedFresh(es[..|es| - 1])
    case Flush => PendingFresh(es[..|es| - 1])
    case Restart => true
  }

  /** No restart came with an allocation missing from the store. */
  predicate Lossless(es: seq<RuleEvent>) {
    es == [] || (Lossless(es[..|es| - 1]) && (es[|es| - 1].Restart? ==> SavedFresh(es[..|es| - 1])))
  }

  /** Nothing was allocated after a restart that lost an allocation. */
  predicate Safe(es: seq<RuleEvent>) {
    es == [] || (Safe(es[..|es| - 1]) && (es[|es| - 1].Allocate? ==> Lossless(es[..|es| - 1])))
  }

  /** Allocations up to which the 32-bit counter does not wrap. */
  const MAX_PAIRS: nat := 0x7FFF_FFFE

  /** The base of the pair at this position, or an earlier one. */
  predicate OnGrid(base: u32, k: nat) {
    3 <= base <= 3 + 2 * k && base % 2 == 1
  }

  predicate DurableOnGrid(d: Durable, n: nat) {
    OnGrid(Recover(d), n) && (d.next == 0 ==> forall id :: id in d.stored ==> id <= 2)
  }

  /** In every run: each pair, and the counter in memory and in either snapshot, lies within the allocations so far. */
  predicate InBounds(s: RuleState) {
    && |s.handedOut| <= MAX_PAIRS
    && (s.next == 0 ==> s.handedOut == [])
    && OnGrid(BaseOf(s.next), |s.handedOut|)
    && DurableOnGrid(s.pending, |s.handedOut|) && DurableOnGrid(s.saved, |s.handedOut|)
    && forall k :: 0 <= k < |s.handedOut| ==>
         OnGrid(s.handedOut[k].farUL, k) && s.handedOut[k] == IdsFrom(s.handedOut[k].farUL)
  }

  lemma FreshSnapshot(s: RuleState, stored: seq<u32>)
    requires InBounds(s) && AllKnown(s.handedOut, stored)
    ensures DurableOnGrid(Durable(s.next, stored), |s.handedOut|) && Recover(Durable(s.next, stored)) == BaseOf(s.next)
  {
    if s.next == 0 {
      MaxIsBound(stored, 2);
      assert forall id :: id in stored ==> Known(s.handedOut, id);
    }
  }

  lemma StepInBounds(s: RuleState, e: RuleEvent)
    requires InBounds(s) && |RuleStep(s, e).handedOut| <= MAX_PAIRS
    requires e.TakeSnapshot? ==> AllKnown(s.handedOut, e.stored)
    ensures InBounds(RuleStep(s, e))
  {
    hide RecoveredNext, AllKnown;
    if e.TakeSnapshot? {
      FreshSnapshot(s, e.stored);
    }
  }

  lemma {:induction false} RunInBounds(es: seq<RuleEvent>)
    requires LegalRules(es) && |RuleRun(es).handedOut| <= MAX_PAIRS
    ensures InBounds(RuleRun(es))
  {
    hide AllKnown;
    if es != [] {
      RunInBounds(es[..|es| - 1]);
      StepInBounds(RuleRun(es[..|es| - 1]), es[|es| - 1]);
    }
  }

  /** Pairs run from 3 on without a gap, and each counter stands at the end exactly when the log says so. */
  predicate Tells(lossless: bool, pendingFresh: bool, savedFresh: bool, s: RuleState) {
    && |s.handedOut| <= MAX_PAIRS
    && (forall k :: 0 <= k < |s.handedOut| ==> s.handedOut[k] == IdsFrom(3 + 2 * k))
    && var last := 3 + 2 * |s.handedOut|;
       if lossless then
         BaseOf(s.next) == last && (pendingFresh <==> Recover(s.pending) == last) && (savedFresh <==> Recover(s.saved) == last)
       else BaseOf(s.next) < last && Recover(s.pending) < last && Recover(s.saved) < last
  }

  lemma StepTells(lossless: bool, pendingFresh: bool, savedFresh: bool, s: RuleState, e: RuleEvent)
    requires InBounds(s) && Tells(lossless, pendingFresh, savedFresh, s)
    requires e.TakeSnapshot? ==> AllKnown(s.handedOut, e.stored)
    requires e.Allocate? ==> lossless && |s.handedOut| < MAX_PAIRS
    ensures var t := RuleStep(s, e);
            match e
            case Allocate => Tells(lossless, false, false, t)
            case TakeSnapshot(_) => Tells(lossless, true, savedFresh, t)
            case Flush => Tells(lossless, pendingFresh, pendingFresh, t)
            case Restart => Tells(lossless && savedFresh, true, true, t)
  {
    hide RecoveredNext, AllKnown, IdsFrom;
    if e.TakeSnapshot? {
      FreshSnapshot(s, e.stored);
    }
  }

  lemma {:induction false} SafeRunsOn(es: seq<RuleEvent>)
    requires LegalRules(es) && |RuleRun(es).handedOut| <= MAX_PAIRS && Safe(es)
    ensures Tells(Lossless(es), PendingFresh(es), SavedFresh(es), RuleRun(es))
  {
    hide AllKnown, InBounds;
    if es != [] {
      hide Tells;
      var prefix, e := es[..|es| - 1], es[|es| - 1];
      SafeRunsOn(prefix);
      RunInBounds(prefix);
      StepTells(Lossless(prefix), PendingFresh(prefix), SavedFresh(prefix), RuleRun(prefix), e);
    }
  }

  ghost predicate Repeats(ids: seq<RuleIds>) {
    exists j, k :: 0 <= j < k < |ids| && ids[j] == ids[k]
  }

  /** An allocation after a lost one hands out a pair again. */
  lemma {:induction false} UnsafeRepeats(es: seq<RuleEvent>)
    requires LegalRules(es) && |RuleRun(es).handedOut| <= MAX_PAIRS && !Safe(es)
    ensures Repeats(RuleRun(es).handedOut)
  {
    hide AllKnown, RecoveredNext, IdsFrom;
    var prefix, e := es[..|es| - 1], es[|es| - 1];
    var before, after := RuleRun(prefix).handedOut, RuleRun(es).handedOut;
    if !Safe(prefix) {
      UnsafeRepeats(prefix);
      var j, k :| 0 <= j < k < |before| && before[j] == before[k];
      assert after[j] == after[k];
    } else {
      SafeRunsOn(prefix);
      RunInBounds(prefix);
      var m := (BaseOf(RuleRun(prefix).next) - 3) / 2;
      assert before[m] == IdsFrom(3 + 2 * m);
      assert after[m] == after[|before|];
    }
  }

  predicate PDRsDistinct(ids: seq<RuleIds>) {
    && (forall k :: 0 <= k < |ids| ==> ids[k].pdrUL != ids[k].pdrDL)
    && (forall j, k :: 0 <= j < k < |ids| ==>
          ids[j].pdrUL !in {ids[k].pdrUL, ids[k].pdrDL} && ids[j].pdrDL !in {ids[k].pdrUL, ids[k].pdrDL})
  }

  predicate PDRsAvoidDefault(ids: seq<RuleIds>) {
    forall k :: 0 <= k < |ids| ==> ids[k].pdrUL !in {1, 2} && ids[k].pdrDL !in {1, 2}
  }

  predicate FARsDistinct(ids: seq<RuleIds>) {
    && (forall k :: 0 <= k < |ids| ==> 2 < ids[k].farUL < ids[k].farDL)
    && (forall j, k :: 0 <= j < k < |ids| ==> ids[j].farUL != ids[k].farUL && ids[j].farDL != ids[k].farDL &&
                                              ids[j].farUL != ids[k].farDL && ids[j].farDL != ids[k].farUL)
  }

  lemma PairNumbers(k: nat)
    requires k < MAX_PAIRS
    ensures var r := IdsFrom(3 + 2 * k);
            && r.farUL == 3 + 2 * k && r.farDL == 4 + 2 * k
            && (k <= 32766 ==> r.pdrUL == 3 + 2 * k)
            && (k <= 32765 ==> r.pdrDL == 4 + 2 * k)
            && (k == 32766 ==> r.pdrDL == 0)
            && (k == 32767 ==> r.pdrUL == 1)
  {
  }

  lemma RunNumbers(ids: seq<RuleIds>)
    requires |ids| <= MAX_PAIRS && forall k :: 0 <= k < |ids| ==> ids[k] == IdsFrom(3 + 2 * k)
    ensures PDRsDistinct(ids) && PDRsAvoidDefault(ids) <==> |ids| <= 32767
    ensures (forall k :: 0 <= k < |ids| ==> ids[k].pdrUL != 0 && ids[k].pdrDL != 0) <==> |ids| <= 32766
    ensures FARsDistinct(ids)
  {
    hide IdsFrom;
    forall k | 0 <= k < |ids| ensures ids[k].farUL == 3 + 2 * k && ids[k].farDL == 4 + 2 * k {
      PairNumbers(k);
    }
    forall k | 0 <= k < |ids| && k <= 32766
      ensures ids[k].pdrUL == 3 + 2 * k && ids[k].pdrDL == if k == 32766 then 0 else 4 + 2 * k
    {
      PairNumbers(k);
    }
    if |ids| > 32767 {
      PairNumbers(32767);
      assert ids[32767].pdrUL == 1;
    }
    if |ids| > 32766 {
      assert ids[32766].pdrDL == 0;
    }
  }

  /**
   * Exactly when the PDR identifiers of a session stay distinct and clear of the default
   * bearer's, over every run of allocations, snapshots, flushes and restarts: nothing is
   * allocated after a restart that lost an allocation, and at most 32767 pairs are.
   */
  lemma PDRIdsDistinctIff(es: seq<RuleEvent>)
    requires LegalRules(es) && |RuleRun(es).handedOut| <= MAX_PAIRS
    ensures var ids := RuleRun(es).handedOut;
            PDRsDistinct(ids) && PDRsAvoidDefault(ids) <==> Safe(es) && |ids| <= 32767
  {
    hide RuleRun, LegalRules, IdsFrom, Safe, Lossless, PendingFresh, SavedFresh;
    if Safe(es) {
      SafeRunsOn(es);
      RunNumbers(RuleRun(es).handedOut);
    } else {
      UnsafeRepeats(es);
    }
  }

  /** FAR identifiers keep all 32 bits: they are distinct exactly under the first of the two conditions. */
  lemma FARIdsDistinctIff(es: seq<RuleEvent>)
    requires LegalRules(es) && |RuleRun(es).handedOut| <= MAX_PAIRS
    ensures FARsDistinct(RuleRun(es).handedOut) <==> Safe(es)
  {
    hide RuleRun, LegalRules, IdsFrom, Safe, Lossless, PendingFresh, SavedFresh;
    if Safe(es) {
      SafeRunsOn(es);
      RunNumbers(RuleRun(es).handedOut);
    } else {
      UnsafeRepeats(es);
    }
  }

  /** In every run the first 32766 pairs have no PDR identifier zero; in a safe one the next pair has. */
  lemma PDRIdsNonzeroIff(es: seq<RuleEvent>)
    requires LegalRules(es) && |RuleRun(es).handedOut| <= MAX_PAIRS
    ensures var ids := RuleRun(es).handedOut;
            var nonzero := forall k :: 0 <= k < |ids| ==> ids[k].pdrUL != 0 && ids[k].pdrDL != 0;
            (|ids| <= 32766 ==> nonzero) && (Safe(es) ==> (nonzero <==> |ids| <= 32766))
  {
    hide RuleRun, LegalRules, Safe, Lossless, PendingFresh, SavedFresh, Recover;
    RunInBounds(es);
    if Safe(es) {
      SafeRunsOn(es);
      hide IdsFrom;
      RunNumbers(RuleRun(es).handedOut);
    }
  }

  /** A crash between an allocation and the next flushed snapshot hands the same identifiers out again. */
  lemma CrashRepeatsIds(stored: seq<u32>)
    requires forall id :: id in stored ==> id <= 2
    ensures var es := [Allocate] + [TakeSnapshot(stored)] + [Restart] + [Allocate];
            && LegalRules(es) && !Safe(es)
            && RuleRun(es).handedOut == [IdsFrom(3), IdsFrom(3)]
  {
    var e1, e2, e3 := [Allocate], [Allocate] + [TakeSnapshot(stored)], [Allocate] + [TakeSnapshot(stored)] + [Restart];
    RuleSnoc([], Allocate);
    assert [] + [Allocate] == e1;
    RuleSnoc(e1, TakeSnapshot(stored));
    RuleSnoc(e2, Restart);
    RuleSnoc(e3, Allocate);
    hide IdsFrom, Known;
  }

  lemma RuleSnoc(es: seq<RuleEvent>, e: RuleEvent)
    ensures RuleRun(es + [e]) == RuleStep(RuleRun(es), e)
    ensures LegalRules(es) && (e.TakeSnapshot? ==> AllKnown(RuleRun(es).handedOut, e.stored)) ==> LegalRules(es + [e])
    ensures SavedFresh(es + [e]) ==
      match e
      case Allocate => false
      case TakeSnapshot(_) => SavedFresh(es)
      case Flush => PendingFresh(es)
      case Restart => true
    ensures Lossless(es + [e]) == (Lossless(es) && (e.Restart? ==> SavedFresh(es)))
    ensures Safe(es + [e]) == (Safe(es) && (e.Allocate? ==> Lossless(es)))
  {
    assert (es + [e])[..|es|] == es;
  }

  // ---- The session object -----------------------------------------------------

  function Touched(b: Bearer, source: string, at: int): Bearer {
    b.(lastControlActivityAt := at, lastActivitySource := if source != "" then source else b.lastActivitySource,
       inactiveSince := 0, cleanupEligible := false)
  }

  function HadPFCP(p: PFCPBinding): bool {
    p.established || p.local.seid != 0 || p.sgwu.seid != 0
  }

  function WithoutSGWU(bearers: map<byte, Bearer>): map<byte, Bearer> {
    map e | e in bearers :: bearers[e].(sgwS1U := NO_FTEID, sgwS5U := NO_FTEID)
  }

  /** The session after its SGW-U context is lost: no SGW-U endpoint may be advertised any more. */
  function Invalidated(s: Session, at: int): Session {
    if !HadPFCP(s.pfcp) then s
    else
      s.(pfcp := NO_BINDING,
         reconciliation := PFCPReconciliation("missing", at, "pfcp-binding-invalidated"),
         bearers := WithoutSGWU(s.bearers),
         state := if s.state != DELETING && s.state != DELETED then RECOVERING else s.state,
         updatedAt := at)
  }

  /** The session after the eNodeB endpoints of all its bearers are released. */
  function Cleared(s: Session, at: int): Session {
    s.(bearers := map e | e in s.bearers :: Touched(s.bearers[e].(enbS1U := NO_FTEID), "release_access_bearers", at),
       updatedAt := at)
  }

  /** A release takes the eNodeB endpoint from every bearer, records the activity, and keeps all else. */
  lemma ClearedFields(s: Session, at: int)
    ensures var t := Cleared(s, at);
            && t == s.(bearers := t.bearers, updatedAt := at) && t.bearers.Keys == s.bearers.Keys
            && forall e :: e in s.bearers ==>
                 t.bearers[e] == s.bearers[e].(enbS1U := NO_FTEID, lastControlActivityAt := at,
                                               lastActivitySource := "release_access_bearers", inactiveSince := 0, cleanupEligible := false)
  {
  }

  /**
   * After losing its SGW-U context a session has no binding and no bearer an SGW-U endpoint;
   * eNodeB and PGW endpoints stay, and only a session not being deleted goes to recovery.
   * One without a context is left alone, so losing it twice changes nothing more.
   */
  lemma InvalidatedFields(s: Session, at: int, later: int)
    ensures var t, had := Invalidated(s, at), s.pfcp.established || s.pfcp.local.seid != 0 || s.pfcp.sgwu.seid != 0;
            && Invalidated(t, later) == t
            && !t.pfcp.established && t.pfcp.local.seid == 0 && t.pfcp.sgwu.seid == 0
            && (!had ==> t == s)
            && (had ==> && t.bearers.Keys == s.bearers.Keys
                        && (forall e :: e in s.bearers ==> t.bearers[e] == s.bearers[e].(sgwS1U := NO_FTEID, sgwS5U := NO_FTEID))
                        && t.state == (if s.state in {DELETING, DELETED} then s.state else RECOVERING)
                        && t.reconciliation.state == "missing" && t.reconciliation.at == at == t.updatedAt
                        && t.imsi == s.imsi && t.nextRuleID == s.nextRuleID)
  {
  }

  /** The same transitions seen from where they lead: deletion is final, and nothing returns to pending. */
  lemma TransitionsByTarget(from: string)
    ensures ValidTransition(from, ACTIVE) <==> from in {PENDING, MODIFYING, RECOVERING}
    ensures ValidTransition(from, MODIFYING) <==> from == ACTIVE
    ensures ValidTransition(from, RECOVERING) <==> from in {PENDING, ACTIVE, MODIFYING}
    ensures ValidTransition(from, DELETING) <==> from in {PENDING, ACTIVE, MODIFYING, RECOVERING}
    ensures ValidTransition(from, DELETED) <==> from in {PENDING, RECOVERING, DELETING}
    ensures forall to :: ValidTransition(from, to) ==> to != PENDING && to != from
    ensures forall to :: ValidTransition(from, to) ==> from != DELETED && (from == DELETING ==> to == DELETED)
  {
  }

  class SGWSession {
    var s: Session

    constructor (s: Session)
      ensures this.s == s
    {
      this.s := s;
    }

    method AllocBearerRuleIDs() returns (ids: RuleIds)
      modifies this
      ensures ids == IdsFrom(BaseOf(old(s.nextRuleID)))
      ensures s == old(s).(nextRuleID := NextAfter(old(s.nextRuleID)))
    {
      if s.nextRuleID == 0 {
        s := s.(nextRuleID := 3);
      }
      var base := s.nextRuleID;
      s := s.(nextRuleID := (base as int + 2) % 0x1_0000_0000);
      var second: u32 := (base as int + 1) % 0x1_0000_0000;
      ids := RuleIds(base % 0x1_0000, second % 0x1_0000, base, second);
    }

    method Transition(next: string, at: int) returns (ok: bool)
      modifies this
      ensures ok == ValidTransition(old(s.state), next)
      ensures s == if ok then old(s).(state := next, updatedAt := at) else old(s)
    {
      if !ValidTransition(s.state, next) {
        return false;
      }
      s := s.(state := next, updatedAt := at);
      return true;
    }

    method SetBearer(b: Bearer, at: int)
      modifies this
      ensures s == old(s).(bearers := old(s.bearers)[b.ebi := Touched(b, "set_bearer", at)], updatedAt := at)
    {
      s := s.(bearers := s.bearers[b.ebi := Touched(b, "set_bearer", at)], updatedAt := at);
    }

    method DeleteBearer(ebi: byte, at: int)
      modifies this
      ensures s == old(s).(bearers := old(s.bearers) - {ebi}, updatedAt := at)
    {
      s := s.(bearers := s.bearers - {ebi}, updatedAt := at);
    }

    method ClearENBFTEIDs(at: int)
      modifies this
      ensures s == Cleared(old(s), at)
    {
      hide Touched;
      var bearers, todo := s.bearers, s.bearers.Keys;
      while todo != {}
        invariant todo <= bearers.Keys == s.bearers.Keys
        invariant forall e :: e in bearers ==>
                    bearers[e] == if e in todo then s.bearers[e]
                                  else Touched(s.bearers[e].(enbS1U := NO_FTEID), "release_access_bearers", at)
        decreases |todo|
      {
        var e :| e in todo;
        todo := todo - {e};
        bearers := bearers[e := Touched(bearers[e].(enbS1U := NO_FTEID), "release_access_bearers", at)];
      }
      assert bearers == Cleared(s, at).bearers;
      s := s.(bearers := bearers, updatedAt := at);
    }

    method ClearSGWUEndpoints()
      modifies this
      ensures s == old(s).(bearers := WithoutSGWU(old(s.bearers)))
    {
      var bearers, todo := s.bearers, s.bearers.Keys;
      while todo != {}
        invariant todo <= bearers.Keys == s.bearers.Keys
        invariant forall e :: e in bearers ==>
                    bearers[e] == if e in todo then s.bearers[e] else s.bearers[e].(sgwS1U := NO_FTEID, sgwS5U := NO_FTEID)
        decreases |todo|
      {
        var e :| e in todo;
        todo := todo - {e};
        bearers := bearers[e := bearers[e].(sgwS1U := NO_FTEID, sgwS5U := NO_FTEID)];
      }
      assert bearers == WithoutSGWU(s.bearers);
      s := s.(bearers := bearers);
    }

    method InvalidatePFCPBinding(at: int) returns (had: bool)
      modifies this
      ensures had == HadPFCP(old(s.pfcp))
      ensures s == Invalidated(old(s), at)
    {
      hide WithoutSGWU;
      if !(s.pfcp.established || s.pfcp.local.seid != 0 || s.pfcp.sgwu.seid != 0) {
        return false;
      }
      s := s.(pfcp := NO_BINDING, reconciliation := PFCPReconciliation("missing", at, "pfcp-binding-invalidated"));
      ClearSGWUEndpoints();
      if s.state != DELETING && s.state != DELETED {
        s := s.(state := RECOVERING);
      }
      s := s.(updatedAt := at);
      return true;
    }
  }

  // ---- Lifecycle --------------------------------------------------------------

  /**
   * What moves a session's state besides creation: transitions, loss of the SGW-U binding, the
   * outcome of reconciliation, MME restoration, and a restart from the snapshot in the store.
   */
  datatype Lifecycle =
    | Transitioned(to: string)
    | LostPFCP
    | Reconciled(matched: bool)
    | DDNAccepted
    | UserPlaneRestored
    | Stored
    | Restarted

  /** The state in memory and the one in the store; a deleted snapshot is not restored. */
  datatype LifecycleState = LifecycleState(current: string, stored: string)

  function ToRecovering(st: string): string {
    if st != DELETING && st != DELETED then RECOVERING else st
  }

  function LifecycleStep(s: LifecycleState, e: Lifecycle): LifecycleState {
    match e
    case Transitioned(to) => if ValidTransition(s.current, to) then s.(current := to) else s
    case LostPFCP => s.(current := ToRecovering(s.current))
    case Reconciled(matched) =>
      if matched then s.(current := if s.current == RECOVERING then ACTIVE else s.current)
      else s.(current := ToRecovering(s.current))
    case DDNAccepted => s.(current := ToRecovering(s.current))
    case UserPlaneRestored => s.(current := if s.current == RECOVERING then ACTIVE else s.current)
    case Stored => s.(stored := s.current)
    case Restarted => s.(current := if s.stored == DELETED then DELETED else RECOVERING)
  }

  function LifecycleRun(from: LifecycleState, es: seq<Lifecycle>): LifecycleState {
    if es == [] then from else LifecycleStep(LifecycleRun(from, es[..|es| - 1]), es[|es| - 1])
  }

  /** Every restart of the run found a deleted snapshot in the store. */
  ghost predicate RestartsFindDeleted(from: LifecycleState, es: seq<Lifecycle>) {
    forall k :: 0 <= k < |es| && es[k].Restarted? ==> LifecycleRun(from, es[..k]).stored == DELETED
  }

  ghost predicate StaysDeleting(from: LifecycleState, es: seq<Lifecycle>) {
    forall k :: 0 <= k <= |es| ==> LifecycleRun(from, es[..k]).current in {DELETING, DELETED}
  }

  lemma {:induction false} StaysWhileDeletedIsStored(from: LifecycleState, es: seq<Lifecycle>)
    requires from.current in {DELETING, DELETED} && RestartsFindDeleted(from, es)
    ensures LifecycleRun(from, es).current in {DELETING, DELETED}
  {
    if es != [] {
      var prefix := es[..|es| - 1];
      assert forall k :: 0 <= k < |prefix| ==> prefix[..k] == es[..k];
      StaysWhileDeletedIsStored(from, prefix);
    }
  }

  /**
   * A session being deleted never comes back, exactly as long as every restart finds it
   * deleted in the store: a snapshot taken while it was deleting, or before, is restored.
   */
  lemma DeletingIsFinalIff(from: LifecycleState, es: seq<Lifecycle>)
    requires from.current in {DELETING, DELETED}
    ensures StaysDeleting(from, es) <==> RestartsFindDeleted(from, es)
  {
    if RestartsFindDeleted(from, es) {
      forall k | 0 <= k <= |es| ensures LifecycleRun(from, es[..k]).current in {DELETING, DELETED} {
        assert forall i :: 0 <= i < k ==> es[..k][..i] == es[..i];
        StaysWhileDeletedIsStored(from, es[..k]);
      }
    } else {
      var k :| 0 <= k < |es| && es[k].Restarted? && LifecycleRun(from, es[..k]).stored != DELETED;
      var upto := es[..k + 1];
      assert upto[..|upto| - 1] == es[..k] && upto[|upto| - 1] == es[k];
      assert LifecycleRun(from, upto).current == RECOVERING;
    }
  }
}
