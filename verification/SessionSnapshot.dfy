/**
 * Durable checkpoints of SGW-C sessions (internal/sgwc/session/snapshot.go, restore.go):
 * what a snapshot keeps of a session, and how a store of sessions is rebuilt from snapshots.
 */
module SessionSnapshot {
  import opened Wrappers
  import opened Bytes
  import opened Addresses
  import opened Sessions
  import SM = SessionManager

  datatype FTEIDSnap = FTEIDSnap(teid: u32, ipv4: string)

  datatype FSEIDSnap = FSEIDSnap(seid: u64, ipv4: string)

  datatype BearerSnap = BearerSnap(
    ebi: byte, qci: byte, arp: ARP,
    enbS1U: FTEIDSnap, sgwS1U: FTEIDSnap, pgwS5U: FTEIDSnap, sgwS5U: FTEIDSnap,
    mbrUplink: u64, mbrDownlink: u64, gbrUplink: u64, gbrDownlink: u64,
    tftRaw: seq<byte>, state: string, pdrIDs: (u32, u32), farIDs: (u32, u32),
    lastControlActivityAt: int, lastUserPlaneActivityAt: int, lastActivitySource: string,
    inactiveSince: int, cleanupEligible: bool)

  datatype PFCPSnap = PFCPSnap(local: FSEIDSnap, sgwu: FSEIDSnap, sgwuName: string, sgwuAddr: string, established: bool)

  datatype ReconciliationSnap = ReconciliationSnap(state: string, at: int, reason: string)

  datatype PGWFailureSnap = PGWFailureSnap(
    pathState: string, pgwAddr: string, pathDownAt: int, restartDetectedAt: int, recoverySeen: bool, recoveryCounter: byte)

  datatype MMERestorationSnap = MMERestorationSnap(
    state: string, mmeAddr: string, pathDownAt: int, restartDetectedAt: int, recoverySeen: bool,
    recoveryCounter: byte, restorationPending: bool, policyAction: string, policyReason: string,
    ddnTriggered: bool, ddnTriggeredAt: int, ddnSequence: u32, ddnAcked: bool, ddnAckedAt: int,
    ddnAckCause: byte, ddnFailureAt: int, ddnFailureCause: byte, ddnFailureReason: string,
    ddnControlAction: string, ddnControlPriority: string, ddnControlReason: string, ddnControlRetryAt: int,
    ddnControlDecidedAt: int, stopPagingSent: bool, stopPagingSentAt: int, stopPagingSequence: u32,
    userPlaneRestored: bool, userPlaneRestoredAt: int, restoredEBI: byte)

  datatype SessionSnap = SessionSnap(
    schemaVersion: nat, id: string, imsi: string, apn: string, ratType: byte, servingNetwork: string,
    mmeControl: FTEIDSnap, sgwS11: FTEIDSnap, pgwControl: FTEIDSnap, sgwS5C: FTEIDSnap,
    ueIPv4: string, defaultBearerID: byte, bearers: seq<BearerSnap>,
    pfcp: PFCPSnap, reconciliation: ReconciliationSnap, pgwFailure: PGWFailureSnap, mmeRestoration: MMERestorationSnap,
    state: string, createdAt: int, updatedAt: int, nextRuleID: u32)

  const SCHEMA_VERSION: nat := 1

  // ---- Snapshot ---------------------------------------------------------------

  function FTEIDToSnap(f: FTEID): FTEIDSnap {
    FTEIDSnap(f.teid, AddrString(f.ipv4))
  }

  function FSEIDToSnap(f: FSEID): FSEIDSnap {
    FSEIDSnap(f.seid, AddrString(f.ipv4))
  }

  function BearerToSnap(b: Bearer): BearerSnap {
    BearerSnap(
      b.ebi, b.qci, b.arp, FTEIDToSnap(b.enbS1U), FTEIDToSnap(b.sgwS1U), FTEIDToSnap(b.pgwS5U), FTEIDToSnap(b.sgwS5U),
      b.mbrUplink, b.mbrDownlink, b.gbrUplink, b.gbrDownlink,
      if b.tft.Some? then b.tft.value else [], b.state, (b.pdrUL, b.pdrDL), (b.farUL, b.farDL),
      b.lastControlActivityAt, b.lastUserPlaneActivityAt, b.lastActivitySource, b.inactiveSince, b.cleanupEligible)
  }

  function MMERestorationToSnap(m: MMERestoration): MMERestorationSnap {
    MMERestorationSnap(
      state := m.state, mmeAddr := m.mmeAddr, pathDownAt := m.pathDownAt,
      restartDetectedAt := m.restartDetectedAt, recoverySeen := m.recoverySeen,
      recoveryCounter := m.recoveryCounter, restorationPending := m.restorationPending,
      policyAction := m.policyAction, policyReason := m.policyReason, ddnTriggered := m.ddnTriggered,
      ddnTriggeredAt := m.ddnTriggeredAt, ddnSequence := m.ddnSequence, ddnAcked := m.ddnAcked,
      ddnAckedAt := m.ddnAckedAt, ddnAckCause := m.ddnAckCause, ddnFailureAt := m.ddnFailureAt,
      ddnFailureCause := m.ddnFailureCause, ddnFailureReason := m.ddnFailureReason,
      ddnControlAction := m.ddnControlAction, ddnControlPriority := m.ddnControlPriority,
      ddnControlReason := m.ddnControlReason, ddnControlRetryAt := m.ddnControlRetryAt,
      ddnControlDecidedAt := m.ddnControlDecidedAt, stopPagingSent := m.stopPagingSent,
      stopPagingSentAt := m.stopPagingSentAt, stopPagingSequence := m.stopPagingSequence,
      userPlaneRestored := m.userPlaneRestored, userPlaneRestoredAt := m.userPlaneRestoredAt,
      restoredEBI := m.restoredEBI)
  }

  /** The bearers in ascending order of their EBI, from one on. */
  function Ascending(bearers: map<byte, Bearer>, lo: nat): seq<BearerSnap>
    decreases 256 - lo
  {
    if lo >= 256 then []
    else (if lo in bearers then [BearerToSnap(bearers[lo])] else []) + Ascending(bearers, lo + 1)
  }

  function Snapshot(s: Session): SessionSnap {
    var f, r := s.pgwFailure, s.reconciliation;
    SessionSnap(
      SCHEMA_VERSION, s.id, s.imsi, s.apn, s.ratType, s.servingNetwork,
      FTEIDToSnap(s.mmeControl), FTEIDToSnap(s.sgwS11), FTEIDToSnap(s.pgwControl), FTEIDToSnap(s.sgwS5C),
      AddrString(s.ueIPv4), s.defaultBearerID, Ascending(s.bearers, 0),
      PFCPSnap(FSEIDToSnap(s.pfcp.local), FSEIDToSnap(s.pfcp.sgwu), s.pfcp.sgwuName, s.pfcp.sgwuAddr, s.pfcp.established),
      ReconciliationSnap(r.state, r.at, r.reason),
      PGWFailureSnap(f.pathState, f.pgwAddr, f.pathDownAt, f.restartDetectedAt, f.recoverySeen, f.recoveryCounter),
      MMERestorationToSnap(s.mmeRestoration),
      s.state, s.createdAt, s.updatedAt, s.nextRuleID)
  }

  /** Collects the EBIs and takes them in increasing order. */
  method SortedBearers(bearers: map<byte, Bearer>) returns (snaps: seq<BearerSnap>)
    ensures snaps == Ascending(bearers, 0)
  {
    hide Ascending, BearerToSnap;
    snaps := [];
    var rest := bearers.Keys;
    assert snaps + Ascending(bearers, 0) == Ascending(bearers, 0);
    ghost var lo: nat := 0;
    while rest != {}
      invariant rest <= bearers.Keys && lo <= 256
      invariant forall e :: e in rest ==> lo <= e
      invariant forall e: byte :: e in bearers && lo <= e ==> e in rest
      invariant snaps + Ascending(bearers, lo) == Ascending(bearers, 0)
      decreases |rest|
    {
      var e := Least(rest);
      TakeLeast(bearers, lo, e);
      AppendAssoc(snaps, BearerToSnap(bearers[e]), Ascending(bearers, (e as nat) + 1));
      snaps := snaps + [BearerToSnap(bearers[e])];
      rest := rest - {e};
      lo := (e as nat) + 1;
    }
    SkipAbsent(bearers, lo, 256);
    EndOfList(bearers, snaps);
  }

  lemma TakeLeast(bearers: map<byte, Bearer>, lo: nat, e: byte)
    requires lo <= e && e in bearers && forall x: byte :: x in bearers && lo <= x ==> e <= x
    ensures Ascending(bearers, lo) == [BearerToSnap(bearers[e])] + Ascending(bearers, (e as nat) + 1)
  {
    SkipAbsent(bearers, lo, e);
  }

  lemma AppendAssoc(a: seq<BearerSnap>, b: BearerSnap, c: seq<BearerSnap>)
    ensures a + ([b] + c) == (a + [b]) + c
  {
  }

  lemma EndOfList(bearers: map<byte, Bearer>, a: seq<BearerSnap>)
    ensures a + Ascending(bearers, 256) == a
  {
  }

  method Least(s: set<byte>) returns (least: byte)
    requires s != {}
    ensures least in s && forall e :: e in s ==> least <= e
  {
    least :| least in s;
    var rest := s - {least};
    while rest != {}
      invariant least in s && rest <= s
      invariant forall e :: e in s && e !in rest ==> least <= e
      decreases |rest|
    {
      var e :| e in rest;
      rest := rest - {e};
      if e < least {
        least := e;
      }
    }
  }

  lemma {:induction false} SkipAbsent(bearers: map<byte, Bearer>, lo: nat, hi: nat)
    requires lo <= hi <= 256 && forall e: byte :: e in bearers && lo <= e ==> hi <= e
    ensures Ascending(bearers, lo) == Ascending(bearers, hi)
    decreases hi - lo
  {
    if lo < hi {
      assert lo !in bearers;
      SkipAbsent(bearers, lo + 1, hi);
    }
  }

  // ---- Restoring one session --------------------------------------------------

  datatype RestoreError =
    | MissingEBI
    | DuplicateEBI(ebi: byte)
    | DefaultBearerMissing(ebi: byte)
    | DuplicateSessionID(id: string)
    | DuplicatePDN(id: string)
    | DuplicateS5C(id: string)

  function FTEIDFromSnap(f: FTEIDSnap): FTEID {
    FTEID(f.teid, AddrFromString(f.ipv4))
  }

  function FSEIDFromSnap(f: FSEIDSnap): FSEID {
    FSEID(f.seid, AddrFromString(f.ipv4))
  }

  /** An empty filter comes back as none. */
  function BearerFromSnap(b: BearerSnap): Bearer {
    Bearer(
      b.ebi, b.qci, b.arp, FTEIDFromSnap(b.enbS1U), FTEIDFromSnap(b.sgwS1U), FTEIDFromSnap(b.pgwS5U), FTEIDFromSnap(b.sgwS5U),
      b.mbrUplink, b.mbrDownlink, b.gbrUplink, b.gbrDownlink,
      if |b.tftRaw| > 0 then Some(b.tftRaw) else None, b.state, b.pdrIDs.0, b.pdrIDs.1, b.farIDs.0, b.farIDs.1,
      b.lastControlActivityAt, b.lastUserPlaneActivityAt, b.lastActivitySource, b.inactiveSince, b.cleanupEligible)
  }

  function MMERestorationFromSnap(m: MMERestorationSnap): MMERestoration {
    MMERestoration(
      state := m.state, mmeAddr := m.mmeAddr, pathDownAt := m.pathDownAt,
      restartDetectedAt := m.restartDetectedAt, recoverySeen := m.recoverySeen,
      recoveryCounter := m.recoveryCounter, restorationPending := m.restorationPending,
      policyAction := m.policyAction, policyReason := m.policyReason, ddnTriggered := m.ddnTriggered,
      ddnTriggeredAt := m.ddnTriggeredAt, ddnSequence := m.ddnSequence, ddnAcked := m.ddnAcked,
      ddnAckedAt := m.ddnAckedAt, ddnAckCause := m.ddnAckCause, ddnFailureAt := m.ddnFailureAt,
      ddnFailureCause := m.ddnFailureCause, ddnFailureReason := m.ddnFailureReason,
      ddnControlAction := m.ddnControlAction, ddnControlPriority := m.ddnControlPriority,
      ddnControlReason := m.ddnControlReason, ddnControlRetryAt := m.ddnControlRetryAt,
      ddnControlDecidedAt := m.ddnControlDecidedAt, stopPagingSent := m.stopPagingSent,
      stopPagingSentAt := m.stopPagingSentAt, stopPagingSequence := m.stopPagingSequence,
      userPlaneRestored := m.userPlaneRestored, userPlaneRestoredAt := m.userPlaneRestoredAt,
      restoredEBI := m.restoredEBI)
  }

  function BearerMap(bs: seq<BearerSnap>): Result<map<byte, Bearer>, RestoreError> {
    if bs == [] then Ok(map[])
    else
      var b := bs[|bs| - 1];
      match BearerMap(bs[..|bs| - 1])
      case Err(e) => Err(e)
      case Ok(m) =>
        if b.ebi == 0 then Err(MissingEBI)
        else if b.ebi in m then Err(DuplicateEBI(b.ebi))
        else Ok(m[b.ebi := BearerFromSnap(b)])
  }

  function StoredIds(bs: seq<BearerSnap>): seq<u32> {
    if bs == [] then []
    else
      var b := bs[|bs| - 1];
      StoredIds(bs[..|bs| - 1]) + [b.pdrIDs.0, b.pdrIDs.1, b.farIDs.0, b.farIDs.1]
  }

  /** The clock stands in for an absent creation time. */
  function SessionFromSnap(p: SessionSnap, clock: int): Result<Session, RestoreError> {
    match BearerMap(p.bearers)
    case Err(e) => Err(e)
    case Ok(bearers) =>
      if p.defaultBearerID !in bearers then Err(DefaultBearerMissing(p.defaultBearerID))
      else
        var createdAt := if p.createdAt == 0 then clock else p.createdAt;
        var f, r := p.pgwFailure, p.reconciliation;
        Ok(Session(
          p.id, p.imsi, p.apn, p.ratType, p.servingNetwork,
          FTEIDFromSnap(p.mmeControl), FTEIDFromSnap(p.sgwS11), FTEIDFromSnap(p.pgwControl), FTEIDFromSnap(p.sgwS5C),
          AddrFromString(p.ueIPv4), p.defaultBearerID, bearers,
          PFCPBinding(FSEIDFromSnap(p.pfcp.local), FSEIDFromSnap(p.pfcp.sgwu), p.pfcp.sgwuName, p.pfcp.sgwuAddr, p.pfcp.established),
          PFCPReconciliation(r.state, r.at, r.reason),
          PGWFailure(f.pathState, f.pgwAddr, f.pathDownAt, f.restartDetectedAt, f.recoverySeen, f.recoveryCounter),
          MMERestorationFromSnap(p.mmeRestoration), [],
          RECOVERING, createdAt, if p.updatedAt == 0 then createdAt else p.updatedAt,
          RecoveredNext(p.nextRuleID, StoredIds(p.bearers))))
  }

  /** A session that can come back: its default bearer is there, and bearers are filed under their own nonzero EBIs. */
  predicate Restorable(s: Session) {
    && s.defaultBearerID in s.bearers
    && forall e :: e in s.bearers ==> e != 0 && s.bearers[e].ebi == e
  }

  function RestoredBearer(b: Bearer): Bearer {
    b.(tft := if b.tft == Some([]) then None else b.tft)
  }

  function RestoredBearers(bearers: map<byte, Bearer>): map<byte, Bearer> {
    map e | e in bearers :: RestoredBearer(bearers[e])
  }

  /** What a restart makes of a session: everything durable is as before, the state is recovering. */
  function Restored(s: Session, clock: int): Session {
    var createdAt := if s.createdAt == 0 then clock else s.createdAt;
    s.(state := RECOVERING, usageReports := [],
       bearers := RestoredBearers(s.bearers),
       createdAt := createdAt,
       updatedAt := if s.updatedAt == 0 then createdAt else s.updatedAt,
       nextRuleID := RecoveredNext(s.nextRuleID, StoredIds(Ascending(s.bearers, 0))))
  }

  lemma FTEIDRoundTrip(f: FTEID)
    ensures FTEIDFromSnap(FTEIDToSnap(f)) == f
  {
    AddrRoundTrip(f.ipv4);
  }

  lemma FSEIDRoundTrip(f: FSEID)
    ensures FSEIDFromSnap(FSEIDToSnap(f)) == f
  {
    AddrRoundTrip(f.ipv4);
  }

  lemma BearerRoundTrip(b: Bearer)
    ensures BearerFromSnap(BearerToSnap(b)) == RestoredBearer(b)
  {
    hide AddrString, AddrFromString;
    FTEIDRoundTrip(b.enbS1U);
    FTEIDRoundTrip(b.sgwS1U);
    FTEIDRoundTrip(b.pgwS5U);
    FTEIDRoundTrip(b.sgwS5U);
  }

  /** The bearers below a bound, restored. */
  function Below(bearers: map<byte, Bearer>, hi: nat): map<byte, Bearer> {
    map e | e in bearers && e < hi :: RestoredBearer(bearers[e])
  }

  lemma BearerMapSnoc(bs: seq<BearerSnap>, b: BearerSnap)
    ensures BearerMap(bs + [b]) ==
      match BearerMap(bs)
      case Err(e) => Err(e)
      case Ok(m) =>
        if b.ebi == 0 then Err(MissingEBI)
        else if b.ebi in m then Err(DuplicateEBI(b.ebi))
        else Ok(m[b.ebi := BearerFromSnap(b)])
  {
    assert (bs + [b])[..|bs|] == bs;
  }

  lemma {:induction false} BearersRoundTrip(bearers: map<byte, Bearer>, before: seq<BearerSnap>, lo: nat)
    requires lo <= 256 && forall e :: e in bearers ==> e != 0 && bearers[e].ebi == e
    requires BearerMap(before) == Ok(Below(bearers, lo))
    ensures BearerMap(before + Ascending(bearers, lo)) == Ok(Below(bearers, 256))
    decreases 256 - lo
  {
    hide BearerMap, RestoredBearer, BearerToSnap, BearerFromSnap;
    if lo == 256 {
      assert before + [] == before;
    } else if lo in bearers {
      BearerRoundTrip(bearers[lo]);
      NextBearer(bearers, before, lo);
      BearersRoundTrip(bearers, before + [BearerToSnap(bearers[lo])], lo + 1);
      AppendAssoc(before, BearerToSnap(bearers[lo]), Ascending(bearers, lo + 1));
    } else {
      assert Below(bearers, lo) == Below(bearers, lo + 1);
      BearersRoundTrip(bearers, before, lo + 1);
      assert [] + Ascending(bearers, lo + 1) == Ascending(bearers, lo + 1);
    }
  }

  lemma NextBearer(bearers: map<byte, Bearer>, before: seq<BearerSnap>, lo: byte)
    requires lo in bearers && lo != 0 && bearers[lo].ebi == lo
    requires BearerMap(before) == Ok(Below(bearers, lo))
    requires BearerFromSnap(BearerToSnap(bearers[lo])) == RestoredBearer(bearers[lo])
    ensures BearerMap(before + [BearerToSnap(bearers[lo])]) == Ok(Below(bearers, (lo as nat) + 1))
  {
    hide BearerMap, RestoredBearer, BearerFromSnap;
    BearerMapSnoc(before, BearerToSnap(bearers[lo]));
    assert Below(bearers, lo)[lo := RestoredBearer(bearers[lo])] == Below(bearers, (lo as nat) + 1);
  }

  lemma MMERestorationRoundTrip(m: MMERestoration)
    ensures MMERestorationFromSnap(MMERestorationToSnap(m)) == m
  {
  }

  /** A snapshot brings back every durable field of the session, with the state replaced by recovering. */
  lemma SessionRoundTrip(s: Session, clock: int)
    requires Restorable(s)
    ensures SessionFromSnap(Snapshot(s), clock) == Ok(Restored(s, clock))
  {
    hide BearerMap, Ascending, StoredIds, RecoveredNext, AddrString, AddrFromString, RestoredBearer, BearerFromSnap,
      BearerToSnap, MMERestorationToSnap, MMERestorationFromSnap;
    AllBearersRoundTrip(s.bearers);
    FTEIDRoundTrip(s.mmeControl);
    FTEIDRoundTrip(s.sgwS11);
    FTEIDRoundTrip(s.pgwControl);
    FTEIDRoundTrip(s.sgwS5C);
    FSEIDRoundTrip(s.pfcp.local);
    FSEIDRoundTrip(s.pfcp.sgwu);
    AddrRoundTrip(s.ueIPv4);
    MMERestorationRoundTrip(s.mmeRestoration);
  }

  lemma AllBearersRoundTrip(bearers: map<byte, Bearer>)
    requires forall e :: e in bearers ==> e != 0 && bearers[e].ebi == e
    ensures BearerMap(Ascending(bearers, 0)) == Ok(RestoredBearers(bearers))
  {
    assert Below(bearers, 0) == map[];
    BearersRoundTrip(bearers, [], 0);
    assert [] + Ascending(bearers, 0) == Ascending(bearers, 0);
    assert Below(bearers, 256) == RestoredBearers(bearers);
  }

  /** Exactly when nothing durable but the state changes: no empty filter, and times and rule counter are set. */
  lemma RestoredExactIff(s: Session, clock: int)
    requires clock != 0 && forall id :: id in StoredIds(Ascending(s.bearers, 0)) ==> id < 0xFFFF_FFFF
    ensures Restored(s, clock) == s.(state := RECOVERING, usageReports := []) <==>
            && (forall e :: e in s.bearers ==> s.bearers[e].tft != Some([]))
            && s.createdAt != 0 && s.updatedAt != 0 && s.nextRuleID != 0
  {
    hide Ascending, StoredIds, RecoveredNext;
    var r := Restored(s, clock);
    RecoveredNonzeroIff(s.nextRuleID, StoredIds(Ascending(s.bearers, 0)));
    if forall e :: e in s.bearers ==> s.bearers[e].tft != Some([]) {
      assert r.bearers == s.bearers;
    } else {
      var e :| e in s.bearers && s.bearers[e].tft == Some([]);
      assert r.bearers[e].tft == None;
    }
  }

  lemma RecoveredNonzeroIff(next: u32, stored: seq<u32>)
    ensures next != 0 ==> RecoveredNext(next, stored) == next
    ensures (forall id :: id in stored ==> id < 0xFFFF_FFFF) ==> RecoveredNext(next, stored) != 0
  {
    MaxIsBound(stored, 2);
  }

  // ---- Restoring the store ----------------------------------------------------

  /** Host and port of an endpoint text; a text without exactly one colon is all host. */
  function EndpointOf(text: string): SM.Addr {
    if text == "" then SM.NoAddr
    else
      var colon := LastColon(text);
      if colon < 0 || LastColon(text[..colon]) >= 0 then SM.At(text, "")
      else SM.At(text[..colon], text[colon + 1..])
  }

  function LastColon(text: string): (i: int)
    ensures -1 <= i < |text|
  {
    if text == "" then -1
    else if text[|text| - 1] == ':' then |text| - 1
    else LastColon(text[..|text| - 1])
  }

  /** The part of a session that the indexes depend on. */
  function Summary(s: Session): SM.Session {
    SM.Session(
      s.imsi, s.defaultBearerID, s.bearers.Keys, s.sgwS11.teid, s.sgwS5C.teid, EndpointOf(s.pgwFailure.pgwAddr),
      if s.pgwControl.ipv4.Some? then SM.At(Dotted(s.pgwControl.ipv4.value), "") else SM.NoAddr, s.createdAt)
  }

  datatype Progress = Progress(
    sessions: map<SM.ID, Session>, index: SM.State,
    restored: nat, skippedInvalid: nat, skippedDeleted: nat, reservedS11: nat)

  const NOTHING: Progress := Progress(map[], SM.EMPTY, 0, 0, 0, 0)

  function AddIndexes(m: SM.State, id: SM.ID, s: SM.Session): SM.State {
    var home := SM.HomePGW(s);
    m.(byID := m.byID[id := s],
       byS11 := m.byS11[s.s11 := (if s.s11 in m.byS11 then m.byS11[s.s11] else []) + [id]],
       byS5C := if s.s5c != 0 then m.byS5C[s.s5c := id] else m.byS5C,
       byPGW := if home == SM.NoAddr then m.byPGW else m.byPGW[home := (if home in m.byPGW then m.byPGW[home] else {}) + {id}],
       byPDN := m.byPDN[SM.PDNOf(s) := id],
       byIMSI := if s.imsi in m.byIMSI && m.byIMSI[s.imsi] in m.byID && s.createdAt <= m.byID[m.byIMSI[s.imsi]].createdAt
                 then m.byIMSI else m.byIMSI[s.imsi := id],
       used := m.used + {s.s11})
  }

  function Admit(g: Progress, s: Session): Progress {
    g.(sessions := g.sessions[s.id := s], index := AddIndexes(g.index, s.id, Summary(s)),
       restored := g.restored + 1, reservedS11 := g.reservedS11 + if s.sgwS11.teid in g.index.used then 0 else 1)
  }

  function RestoreOne(g: Progress, p: SessionSnap, clock: int): Result<Progress, RestoreError> {
    if p.id == "" || p.imsi == "" || p.defaultBearerID == 0 || p.sgwS11.teid == 0 then
      Ok(g.(skippedInvalid := g.skippedInvalid + 1))
    else if p.state == DELETED then Ok(g.(skippedDeleted := g.skippedDeleted + 1))
    else if p.id in g.index.byID then Err(DuplicateSessionID(p.id))
    else if SM.PDN(p.imsi, p.defaultBearerID) in g.index.byPDN then Err(DuplicatePDN(p.id))
    else if p.sgwS5C.teid != 0 && p.sgwS5C.teid in g.index.byS5C then Err(DuplicateS5C(p.id))
    else
      match SessionFromSnap(p, clock)
      case Err(_) => Ok(g.(skippedInvalid := g.skippedInvalid + 1))
      case Ok(s) => Ok(Admit(g, s))
  }

  function RestoreAll(ps: seq<SessionSnap>, clock: int): Result<Progress, RestoreError> {
    if ps == [] then Ok(NOTHING)
    else
      match RestoreAll(ps[..|ps| - 1], clock)
      case Err(e) => Err(e)
      case Ok(g) => RestoreOne(g, ps[|ps| - 1], clock)
  }

  lemma {:induction false} FirstErrorWins(ps: seq<SessionSnap>, k: nat, clock: int)
    requires k <= |ps| && RestoreAll(ps[..k], clock).Err?
    ensures RestoreAll(ps, clock) == RestoreAll(ps[..k], clock)
  {
    if k < |ps| {
      assert ps[..|ps| - 1][..k] == ps[..k];
      FirstErrorWins(ps[..|ps| - 1], k, clock);
    } else {
      assert ps[..k] == ps;
    }
  }

  class Store {
    var sessions: map<SM.ID, Session>
    var index: SM.State

    /** Builds the new maps aside and swaps them in at the end; an error leaves the store as it was. */
    method RestoreSnapshots(ps: seq<SessionSnap>, clock: int) returns (r: Result<Progress, RestoreError>)
      modifies this
      ensures r == RestoreAll(ps, clock)
      ensures r.Ok? ==> sessions == r.value.sessions && index == r.value.index
      ensures r.Err? ==> sessions == old(sessions) && index == old(index)
    {
      var next := NOTHING;
      for i := 0 to |ps|
        invariant RestoreAll(ps[..i], clock) == Ok(next)
        invariant sessions == old(sessions) && index == old(index)
      {
        assert ps[..i + 1][..i] == ps[..i];
        var step := RestoreOne(next, ps[i], clock);
        if step.Err? {
          FirstErrorWins(ps, i + 1, clock);
          return step;
        }
        next := step.value;
      }
      assert ps[..|ps|] == ps;
      sessions, index := next.sessions, next.index;
      return Ok(next);
    }
  }

  // ---- Every session of a coherent store comes back ---------------------------

  /** The indexes are those of these sessions. */
  ghost predicate Mirrors(sessions: map<SM.ID, Session>, index: SM.State) {
    && index.byID.Keys == sessions.Keys
    && forall id :: id in sessions ==> index.byID[id] == Summary(sessions[id])
  }

  predicate Listable(s: Session, id: SM.ID) {
    s.id == id && id != "" && s.imsi != "" && s.state != DELETED && Restorable(s)
  }

  lemma AddS11(m: SM.State, id: SM.ID, s: SM.Session)
    requires SM.S11Coherent(m.byID, m.byS11) && SM.TEIDCoherent(m.byS11, m.used) && id !in m.byID && s.s11 != 0
    ensures SM.S11Coherent(AddIndexes(m, id, s).byID, AddIndexes(m, id, s).byS11)
    ensures SM.TEIDCoherent(AddIndexes(m, id, s).byS11, AddIndexes(m, id, s).used)
  {
    hide SM.S11Coherent;
    SM.InsertS11(m.(used := m.used + {s.s11}), id, s);
  }

  lemma AddPDN(m: SM.State, id: SM.ID, s: SM.Session)
    requires SM.PDNCoherent(m.byID, m.byPDN) && id !in m.byID && SM.PDNOf(s) !in m.byPDN
    ensures SM.PDNCoherent(AddIndexes(m, id, s).byID, AddIndexes(m, id, s).byPDN)
  {
    hide SM.PDNCoherent;
    SM.InsertPDN(m, id, s);
  }

  lemma AddS5C(m: SM.State, id: SM.ID, s: SM.Session)
    requires SM.S5CCoherent(m.byID, m.byS5C) && id !in m.byID && (s.s5c != 0 ==> s.s5c !in m.byS5C)
    ensures SM.S5CCoherent(AddIndexes(m, id, s).byID, AddIndexes(m, id, s).byS5C)
  {
  }

  lemma AddPGW(m: SM.State, id: SM.ID, s: SM.Session)
    requires SM.PGWCoherent(m.byID, m.byPGW) && id !in m.byID
    requires s.pgwAddr != SM.NoAddr ==> s.pgwAddr == SM.Canonical(s.pgwAddr)
    ensures SM.PGWCoherent(AddIndexes(m, id, s).byID, AddIndexes(m, id, s).byPGW)
  {
    var n, home := AddIndexes(m, id, s), SM.HomePGW(s);
    assert forall a, x :: SM.Listed(n.byPGW, a, x) <==> SM.Listed(m.byPGW, a, x) || (home != SM.NoAddr && a == home && x == id);
  }

  lemma AddIMSI(m: SM.State, id: SM.ID, s: SM.Session)
    requires SM.IMSICoherent(m.byID, m.byIMSI) && SM.IMSINewest(m.byID, m.byIMSI) && id !in m.byID
    ensures var n := AddIndexes(m, id, s); SM.IMSICoherent(n.byID, n.byIMSI) && SM.IMSINewest(n.byID, n.byIMSI)
  {
  }

  /** Adding a restored session to coherent indexes keeps them coherent, the newest session included. */
  lemma AddKeepsCoherent(m: SM.State, id: SM.ID, s: SM.Session)
    requires SM.FullyCoherent(m) && id !in m.byID && s.s11 != 0
    requires SM.PDNOf(s) !in m.byPDN && (s.s5c != 0 ==> s.s5c !in m.byS5C)
    requires s.pgwAddr != SM.NoAddr ==> s.pgwAddr == SM.Canonical(s.pgwAddr)
    ensures SM.FullyCoherent(AddIndexes(m, id, s))
    ensures s.imsi in m.byIMSI && m.byIMSI[s.imsi] in m.byID && s.createdAt == m.byID[m.byIMSI[s.imsi]].createdAt ==>
              AddIndexes(m, id, s).byIMSI == m.byIMSI
  {
    hide SM.S11Coherent, SM.PDNCoherent, SM.S5CCoherent, SM.PGWCoherent, SM.IMSICoherent, SM.IMSINewest, SM.TEIDCoherent, AddIndexes;
    AddS11(m, id, s);
    AddPDN(m, id, s);
    AddS5C(m, id, s);
    AddPGW(m, id, s);
    AddIMSI(m, id, s);
    TieKeepsFirst(m, id, s);
  }

  lemma TieKeepsFirst(m: SM.State, id: SM.ID, s: SM.Session)
    ensures s.imsi in m.byIMSI && m.byIMSI[s.imsi] in m.byID && s.createdAt == m.byID[m.byIMSI[s.imsi]].createdAt ==>
              AddIndexes(m, id, s).byIMSI == m.byIMSI
  {
  }

  function Snapshots(sessions: map<SM.ID, Session>, ids: seq<SM.ID>): (ps: seq<SessionSnap>)
    requires forall id :: id in ids ==> id in sessions
    ensures |ps| == |ids|
  {
    if ids == [] then [] else Snapshots(sessions, ids[..|ids| - 1]) + [Snapshot(sessions[ids[|ids| - 1]])]
  }

  /** What is common to a session and its restored form, as far as the indexes are concerned. */
  lemma RestoredSummary(s: Session, clock: int)
    ensures Summary(Restored(s, clock)) == Summary(s).(createdAt := if s.createdAt == 0 then clock else s.createdAt)
  {
    hide EndpointOf, Dotted, StoredIds, Ascending, RecoveredNext, RestoredBearer;
    assert Restored(s, clock).bearers.Keys == s.bearers.Keys;
  }

  lemma PDNUnique(index: SM.State, x: SM.ID, id: SM.ID)
    requires SM.PDNCoherent(index.byID, index.byPDN) && x in index.byID && id in index.byID
    requires SM.PDNOf(index.byID[x]) == SM.PDNOf(index.byID[id])
    ensures x == id
  {
  }

  lemma S5CUnique(index: SM.State, x: SM.ID, id: SM.ID)
    requires SM.S5CCoherent(index.byID, index.byS5C) && x in index.byID && id in index.byID
    requires index.byID[x].s5c == index.byID[id].s5c != 0
    ensures x == id
  {
  }

  /** The conditions the restore checks hold for each session of a coherent store that was not yet restored. */
  lemma NotYetIndexed(sessions: map<SM.ID, Session>, index: SM.State, g: Progress, clock: int, id: SM.ID)
    requires SM.Coherent(index) && Mirrors(sessions, index) && SM.FullyCoherent(g.index) && Mirrors(g.sessions, g.index)
    requires id in sessions && id !in g.sessions
    requires forall x :: x in g.sessions ==> x in sessions && g.sessions[x] == Restored(sessions[x], clock)
    ensures var s := Summary(sessions[id]);
            && id !in g.index.byID && s.s11 != 0 && SM.PDNOf(s) !in g.index.byPDN
            && (s.s5c != 0 ==> s.s5c !in g.index.byS5C)
            && (s.pgwAddr != SM.NoAddr ==> s.pgwAddr == SM.Canonical(s.pgwAddr))
  {
    hide Summary, Restored, SM.IMSICoherent, SM.IMSINewest;
    var s := Summary(sessions[id]);
    if SM.PDNOf(s) in g.index.byPDN {
      var x := g.index.byPDN[SM.PDNOf(s)];
      RestoredSummary(sessions[x], clock);
      PDNUnique(index, x, id);
    }
    if s.s5c != 0 && s.s5c in g.index.byS5C {
      var x := g.index.byS5C[s.s5c];
      RestoredSummary(sessions[x], clock);
      S5CUnique(index, x, id);
    }
    assert s.s11 in index.byS11;
  }

  lemma AdmitKeeps(g: Progress, s: Session)
    requires SM.FullyCoherent(g.index) && Mirrors(g.sessions, g.index)
    requires var t := Summary(s);
             && s.id !in g.index.byID && t.s11 != 0 && SM.PDNOf(t) !in g.index.byPDN
             && (t.s5c != 0 ==> t.s5c !in g.index.byS5C)
             && (t.pgwAddr != SM.NoAddr ==> t.pgwAddr == SM.Canonical(t.pgwAddr))
    ensures SM.FullyCoherent(Admit(g, s).index) && Mirrors(Admit(g, s).sessions, Admit(g, s).index)
  {
    hide Summary, SM.FullyCoherent;
    AddKeepsCoherent(g.index, s.id, Summary(s));
  }

  lemma RestoreNext(sessions: map<SM.ID, Session>, index: SM.State, g: Progress, clock: int, id: SM.ID)
    requires SM.Coherent(index) && Mirrors(sessions, index) && SM.FullyCoherent(g.index) && Mirrors(g.sessions, g.index)
    requires id in sessions && id !in g.sessions && Listable(sessions[id], id)
    requires forall x :: x in g.sessions ==> x in sessions && g.sessions[x] == Restored(sessions[x], clock)
    ensures var r := RestoreOne(g, Snapshot(sessions[id]), clock);
            && r.Ok? && r.value == Admit(g, Restored(sessions[id], clock))
            && SM.FullyCoherent(r.value.index) && Mirrors(r.value.sessions, r.value.index)
  {
    hide SM.Coherent, SM.FullyCoherent, Mirrors, SessionFromSnap, AddIndexes, EndpointOf, Dotted, Ascending, StoredIds, AddrString,
      MMERestorationToSnap, RestoredBearers;
    NotYetIndexed(sessions, index, g, clock, id);
    SessionRoundTrip(sessions[id], clock);
    RestoredSummary(sessions[id], clock);
    AdmitKeeps(g, Restored(sessions[id], clock));
  }

  /**
   * Restoring the snapshots of a coherent store, listed in any order, restores every session
   * without error or loss, rebuilds coherent indexes over them and reserves every S11 TEID.
   */
  lemma {:induction false} RestoreBringsBackAll(sessions: map<SM.ID, Session>, index: SM.State, ids: seq<SM.ID>, clock: int)
    requires SM.Coherent(index) && Mirrors(sessions, index)
    requires SM.NoDuplicates(ids) && forall id :: id in ids ==> id in sessions && Listable(sessions[id], id)
    ensures var r := RestoreAll(Snapshots(sessions, ids), clock);
            && r.Ok?
            && r.value.sessions == (map id | id in ids :: Restored(sessions[id], clock))
            && SM.FullyCoherent(r.value.index) && Mirrors(r.value.sessions, r.value.index)
            && r.value.restored == |ids| && r.value.skippedInvalid == r.value.skippedDeleted == 0
  {
    hide SM.Coherent, SM.FullyCoherent, Mirrors, RestoreOne, Restored, Snapshot, Listable, AddIndexes;
    if ids == [] {
      EmptyIsCoherent();
    } else {
      var k := |ids| - 1;
      assert ids == ids[..k] + [ids[k]];
      RestoreBringsBackAll(sessions, index, ids[..k], clock);
      var g := RestoreAll(Snapshots(sessions, ids[..k]), clock).value;
      assert ids[k] !in ids[..k];
      RestoreNext(sessions, index, g, clock, ids[k]);
      assert Snapshots(sessions, ids)[..k] == Snapshots(sessions, ids[..k]);
      RestoredId(sessions[ids[k]], clock, ids[k]);
      assert Admit(g, Restored(sessions[ids[k]], clock)).sessions == (map id | id in ids :: Restored(sessions[id], clock));
    }
  }

  lemma EmptyIsCoherent()
    ensures SM.FullyCoherent(SM.EMPTY) && Mirrors(map[], SM.EMPTY)
  {
  }

  lemma RestoredId(s: Session, clock: int, id: SM.ID)
    requires Listable(s, id)
    ensures Restored(s, clock).id == id
  {
    hide RestoredBearers, StoredIds, Ascending;
  }

  /** After a restore the reserved S11 TEIDs are exactly those the sessions use. */
  lemma ReservedAreUsed(sessions: map<SM.ID, Session>, index: SM.State)
    requires SM.FullyCoherent(index) && Mirrors(sessions, index)
    ensures forall t :: t in index.used <==> exists id :: id in sessions && sessions[id].sgwS11.teid == t
  {
    hide EndpointOf, Dotted, SM.S11Coherent, SM.PDNCoherent, SM.S5CCoherent, SM.PGWCoherent, SM.IMSICoherent, SM.IMSINewest;
    assert forall id :: id in sessions ==> id in index.byID && index.byID[id].s11 == sessions[id].sgwS11.teid;
    forall t ensures t in index.used <==> exists id :: id in sessions && sessions[id].sgwS11.teid == t {
      SM.UsedIffListed(index, t);
      if t in index.used {
        var x :| x in index.byID && index.byID[x].s11 == t;
        assert x in sessions;
      }
    }
  }

  // ---- Any list of snapshots --------------------------------------------------

  /** The snapshot says which session and which PDN connection it is of. */
  predicate Named(p: SessionSnap) {
    p.id != "" && p.imsi != "" && p.defaultBearerID != 0 && p.sgwS11.teid != 0
  }

  predicate ProperBearers(bs: seq<BearerSnap>) {
    && (forall i :: 0 <= i < |bs| ==> bs[i].ebi != 0)
    && (forall i, j :: 0 <= i < j < |bs| ==> bs[i].ebi != bs[j].ebi)
  }

  /** A snapshot to restore: not of a deleted session, with distinct bearers and the default one among them. */
  predicate Wanted(p: SessionSnap) {
    Named(p) && p.state != DELETED && ProperBearers(p.bearers) && exists b :: b in p.bearers && b.ebi == p.defaultBearerID
  }

  /** It collides with a session restored before. */
  predicate Collides(g: Progress, p: SessionSnap) {
    || p.id in g.index.byID
    || SM.PDN(p.imsi, p.defaultBearerID) in g.index.byPDN
    || (p.sgwS5C.teid != 0 && p.sgwS5C.teid in g.index.byS5C)
  }

  lemma ProperSnoc(bs: seq<BearerSnap>, b: BearerSnap)
    ensures ProperBearers(bs + [b]) <==> ProperBearers(bs) && b.ebi != 0 && forall x :: x in bs ==> x.ebi != b.ebi
  {
    var all := bs + [b];
    assert forall i :: 0 <= i < |bs| ==> all[i] == bs[i];
    assert all[|bs|] == b;
  }

  lemma {:induction false} BearerMapIff(bs: seq<BearerSnap>)
    ensures BearerMap(bs).Ok? <==> ProperBearers(bs)
    ensures BearerMap(bs).Ok? ==> forall e :: e in BearerMap(bs).value <==> exists b :: b in bs && b.ebi == e
    ensures BearerMap(bs).Ok? ==> forall b :: b in bs ==> BearerMap(bs).value[b.ebi] == BearerFromSnap(b)
  {
    if bs != [] {
      hide BearerFromSnap, ProperBearers;
      var n := |bs| - 1;
      BearerMapIff(bs[..n]);
      ProperSnoc(bs[..n], bs[n]);
      assert bs == bs[..n] + [bs[n]];
    } else {
      assert ProperBearers(bs);
    }
  }

  predicate HasId(b: BearerSnap, x: u32) {
    x == b.pdrIDs.0 || x == b.pdrIDs.1 || x == b.farIDs.0 || x == b.farIDs.1
  }

  lemma {:induction false} StoredIdsAre(bs: seq<BearerSnap>, x: u32)
    ensures x in StoredIds(bs) <==> exists b :: b in bs && HasId(b, x)
  {
    if bs != [] {
      var n := |bs| - 1;
      StoredIdsAre(bs[..n], x);
      assert bs == bs[..n] + [bs[n]];
      assert x in StoredIds(bs) <==> x in StoredIds(bs[..n]) || HasId(bs[n], x);
    }
  }

  /** The first FAR identifiers given out after a restore without a stored counter are those of no restored bearer. */
  lemma RestoredIdsAreNew(p: SessionSnap, clock: int, e: byte)
    requires SessionFromSnap(p, clock).Ok? && p.nextRuleID == 0
    requires forall b, x :: b in p.bearers && HasId(b, x) ==> x <= 0xFFFF_FFFD
    requires e in SessionFromSnap(p, clock).value.bearers
    ensures var s := SessionFromSnap(p, clock).value;
            var ids, b := IdsFrom(BaseOf(s.nextRuleID)), s.bearers[e];
            ids.farUL !in {b.pdrUL, b.pdrDL, b.farUL, b.farDL} && ids.farDL !in {b.pdrUL, b.pdrDL, b.farUL, b.farDL}
  {
    hide BearerMap, StoredIds, RecoveredNext, AddrFromString, ProperBearers, IdsFrom, BaseOf;
    BearerMapIff(p.bearers);
    var b :| b in p.bearers && b.ebi == e;
    forall x: u32 ensures x in StoredIds(p.bearers) <==> exists c :: c in p.bearers && HasId(c, x) {
      StoredIdsAre(p.bearers, x);
    }
    assert HasId(b, b.pdrIDs.0) && HasId(b, b.pdrIDs.1) && HasId(b, b.farIDs.0) && HasId(b, b.farIDs.1);
    RecoveredIdsAreNew(StoredIds(p.bearers));
  }

  /** One snapshot: restored when wanted, refused when it collides, and otherwise counted and left out. */
  lemma RestoreOneIff(g: Progress, p: SessionSnap, clock: int)
    ensures var r, s := RestoreOne(g, p, clock), SessionFromSnap(p, clock);
            && (r.Err? <==> Named(p) && p.state != DELETED && Collides(g, p))
            && (r.Ok? && Wanted(p) ==> s.Ok? && r.value == Admit(g, s.value))
            && (Named(p) && p.state == DELETED ==> r == Ok(g.(skippedDeleted := g.skippedDeleted + 1)))
            && (r.Ok? && !Wanted(p) && !(Named(p) && p.state == DELETED) ==> r == Ok(g.(skippedInvalid := g.skippedInvalid + 1)))
  {
    hide Admit, StoredIds, RecoveredNext, AddrFromString, BearerMap, ProperBearers;
    BearerMapIff(p.bearers);
  }

  lemma AdmittedSummary(p: SessionSnap, clock: int)
    requires SessionFromSnap(p, clock).Ok?
    ensures var s := SessionFromSnap(p, clock).value;
            && s.id == p.id && s.state == RECOVERING
            && Summary(s).imsi == p.imsi && Summary(s).defaultEBI == p.defaultBearerID
            && Summary(s).s11 == p.sgwS11.teid && Summary(s).s5c == p.sgwS5C.teid
            && Summary(s).pgwAddr == EndpointOf(p.pgwFailure.pgwAddr)
  {
    hide BearerMap, StoredIds, RecoveredNext, AddrFromString, EndpointOf, Dotted;
  }

  /** The recorded PGW endpoint is written as the store writes it. */
  predicate RecordedCanonically(p: SessionSnap) {
    EndpointOf(p.pgwFailure.pgwAddr) != SM.NoAddr ==> EndpointOf(p.pgwFailure.pgwAddr) == SM.Canonical(EndpointOf(p.pgwFailure.pgwAddr))
  }

  /** The wanted snapshots came back, each as it says, and nothing else did. */
  ghost predicate WantedCameBack(ps: seq<SessionSnap>, sessions: map<SM.ID, Session>, clock: int) {
    && (forall p :: p in ps && Wanted(p) ==> p.id in sessions && Ok(sessions[p.id]) == SessionFromSnap(p, clock))
    && (forall id :: id in sessions ==> sessions[id].state == RECOVERING && exists p :: p in ps && Wanted(p) && p.id == id)
  }

  /** And every snapshot and every S11 TEID is counted once. */
  ghost predicate RestoredWell(ps: seq<SessionSnap>, g: Progress, clock: int) {
    && Mirrors(g.sessions, g.index)
    && WantedCameBack(ps, g.sessions, clock)
    && g.restored == |g.sessions| && g.restored + g.skippedInvalid + g.skippedDeleted == |ps|
    && g.reservedS11 == |g.index.used|
  }

  /**
   * Restoring any list of snapshots that does not end in a collision: exactly the wanted ones
   * come back. The indexes are coherent exactly when each of them records its PGW endpoint as
   * the store writes it.
   */
  lemma AnyListRestores(ps: seq<SessionSnap>, clock: int)
    requires RestoreAll(ps, clock).Ok?
    ensures RestoredWell(ps, RestoreAll(ps, clock).value, clock)
    ensures SM.FullyCoherent(RestoreAll(ps, clock).value.index) <==> forall p :: p in ps && Wanted(p) ==> RecordedCanonically(p)
  {
    hide RestoreAll, SM.FullyCoherent, RecordedCanonically, Wanted, RestoredWell;
    AllWantedRestored(ps, clock);
    if forall p :: p in ps && Wanted(p) ==> RecordedCanonically(p) {
      CanonicalIsCoherent(ps, clock);
    } else {
      var p :| p in ps && Wanted(p) && !RecordedCanonically(p);
      UncanonicalBreaks(ps, RestoreAll(ps, clock).value, clock, p);
    }
  }

  lemma {:induction false} AllWantedRestored(ps: seq<SessionSnap>, clock: int)
    requires RestoreAll(ps, clock).Ok?
    ensures RestoredWell(ps, RestoreAll(ps, clock).value, clock)
  {
    hide RestoreOne, RestoredWell;
    if ps == [] {
      NothingRestored(clock);
    } else {
      var n := |ps| - 1;
      assert ps == ps[..n] + [ps[n]];
      AllWantedRestored(ps[..n], clock);
      OneMoreRestored(ps[..n], RestoreAll(ps[..n], clock).value, ps[n], clock);
    }
  }

  lemma {:induction false} CanonicalIsCoherent(ps: seq<SessionSnap>, clock: int)
    requires RestoreAll(ps, clock).Ok? && forall p :: p in ps && Wanted(p) ==> RecordedCanonically(p)
    ensures SM.FullyCoherent(RestoreAll(ps, clock).value.index)
  {
    hide RestoreOne, SM.FullyCoherent, RecordedCanonically, Wanted, RestoredWell;
    if ps == [] {
      EmptyIsCoherent();
    } else {
      var n := |ps| - 1;
      assert ps == ps[..n] + [ps[n]];
      CanonicalIsCoherent(ps[..n], clock);
      AllWantedRestored(ps[..n], clock);
      OneMoreCoherent(ps[..n], RestoreAll(ps[..n], clock).value, ps[n], clock);
    }
  }

  lemma UncanonicalBreaks(ps: seq<SessionSnap>, g: Progress, clock: int, p: SessionSnap)
    requires RestoredWell(ps, g, clock) && p in ps && Wanted(p) && !RecordedCanonically(p)
    ensures !SM.FullyCoherent(g.index)
  {
    hide SessionFromSnap, Wanted, Summary, EndpointOf, SM.S11Coherent, SM.PDNCoherent, SM.S5CCoherent, SM.IMSICoherent, SM.IMSINewest;
    AdmittedSummary(p, clock);
    assert g.index.byID[p.id] == Summary(g.sessions[p.id]);
  }

  lemma NothingRestored(clock: int)
    ensures RestoredWell([], NOTHING, clock)
  {
  }

  lemma OneMoreRestored(ps: seq<SessionSnap>, g: Progress, p: SessionSnap, clock: int)
    requires RestoredWell(ps, g, clock) && RestoreOne(g, p, clock).Ok?
    ensures RestoredWell(ps + [p], RestoreOne(g, p, clock).value, clock)
  {
    hide RestoreOne, SessionFromSnap, Summary, Wanted, Named, AddIndexes, WantedCameBack;
    RestoreOneIff(g, p, clock);
    WantedIsNamed(p);
    if Wanted(p) {
      var s := SessionFromSnap(p, clock).value;
      AdmittedSummary(p, clock);
      assert p.id !in g.sessions;
      AdmitCounts(g, s);
      AdmitMirrors(g, s);
      OneMoreCameBack(ps, g.sessions, p, s, clock);
    } else {
      OneMoreLeftOut(ps, g.sessions, p, clock);
    }
  }

  lemma OneMoreCameBack(ps: seq<SessionSnap>, sessions: map<SM.ID, Session>, p: SessionSnap, s: Session, clock: int)
    requires WantedCameBack(ps, sessions, clock) && Wanted(p) && p.id !in sessions
    requires SessionFromSnap(p, clock) == Ok(s) && s.state == RECOVERING
    ensures WantedCameBack(ps + [p], sessions[p.id := s], clock)
  {
    hide SessionFromSnap, Wanted;
    assert forall q :: q in ps + [p] <==> q in ps || q == p;
  }

  lemma OneMoreLeftOut(ps: seq<SessionSnap>, sessions: map<SM.ID, Session>, p: SessionSnap, clock: int)
    requires WantedCameBack(ps, sessions, clock) && !Wanted(p)
    ensures WantedCameBack(ps + [p], sessions, clock)
  {
    hide SessionFromSnap, Wanted;
    assert forall q :: q in ps + [p] <==> q in ps || q == p;
  }

  lemma AdmitMirrors(g: Progress, s: Session)
    requires Mirrors(g.sessions, g.index)
    ensures Mirrors(Admit(g, s).sessions, Admit(g, s).index)
  {
    hide Summary;
  }

  lemma OneMoreCoherent(ps: seq<SessionSnap>, g: Progress, p: SessionSnap, clock: int)
    requires RestoredWell(ps, g, clock) && SM.FullyCoherent(g.index) && RestoreOne(g, p, clock).Ok?
    requires Wanted(p) ==> RecordedCanonically(p)
    ensures SM.FullyCoherent(RestoreOne(g, p, clock).value.index)
  {
    hide RestoreOne, SessionFromSnap, SM.FullyCoherent, Mirrors, EndpointOf, Summary, Wanted, Named, AddIndexes;
    RestoreOneIff(g, p, clock);
    WantedIsNamed(p);
    if Wanted(p) {
      AdmittedSummary(p, clock);
      AdmitKeeps(g, SessionFromSnap(p, clock).value);
    }
  }

  lemma WantedIsNamed(p: SessionSnap)
    ensures Wanted(p) ==> Named(p) && p.state != DELETED && p.sgwS11.teid != 0
  {
  }

  lemma AdmitCounts(g: Progress, s: Session)
    requires s.id !in g.sessions && g.restored == |g.sessions| && g.reservedS11 == |g.index.used|
    ensures var r := Admit(g, s);
            && r.sessions == g.sessions[s.id := s] && r.restored == |r.sessions| == g.restored + 1
            && r.reservedS11 == |r.index.used| && r.skippedInvalid == g.skippedInvalid && r.skippedDeleted == g.skippedDeleted
  {
    hide EndpointOf, Dotted;
    assert Admit(g, s).index.used == g.index.used + {s.sgwS11.teid};
    assert s.sgwS11.teid in g.index.used ==> g.index.used + {s.sgwS11.teid} == g.index.used;
  }

  /** Endpoint texts: a host with a port, a host alone, and with a second colon all host. */
  lemma EndpointParts(host: string, middle: string, port: string)
    requires ':' !in host && ':' !in middle && ':' !in port
    ensures EndpointOf(host + ":" + port) == SM.At(host, port)
    ensures host != "" ==> EndpointOf(host) == SM.At(host, "")
    ensures EndpointOf(host + ":" + middle + ":" + port) == SM.At(host + ":" + middle + ":" + port, "")
  {
    var text, front := host + ":" + port, host + ":" + middle;
    ColonAt(text, |host|);
    NoColon(host);
    assert text[..|host|] == host && text[|host| + 1..] == port;
    ColonAt(front, |host|);
    ColonAt(front + ":" + port, |front|);
    assert front + ":" + port == host + ":" + middle + ":" + port;
    assert (front + ":" + port)[..|front|] == front;
  }

  lemma {:induction false} ColonAt(text: string, k: nat)
    requires k < |text| && text[k] == ':' && ':' !in text[k + 1..]
    ensures LastColon(text) == k
  {
    if k < |text| - 1 {
      assert text[|text| - 1] == text[k + 1..][|text| - k - 2];
      assert text[..|text| - 1][k + 1..] == text[k + 1..][..|text| - k - 2];
      ColonAt(text[..|text| - 1], k);
    }
  }

  lemma {:induction false} NoColon(text: string)
    requires ':' !in text
    ensures LastColon(text) == -1
  {
    if text != "" {
      NoColon(text[..|text| - 1]);
    }
  }
}
