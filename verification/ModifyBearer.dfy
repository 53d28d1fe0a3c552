/**
 * Modify Bearer and Release Access Bearers (internal/sgwc/s11/handler.go) over the downlink
 * FARs of the SGW-U (internal/sgwu/pfcpserver/server.go): where the gateway believes each
 * bearer's eNodeB endpoint is, and where the user plane sends its packets.
 * A PFCP modification either takes effect as a whole or changes nothing.
 */
module ModifyBearer {
  import opened Wrappers
  import opened Bytes
  import opened Addresses
  import opened Sessions

  const ACCEPTED: byte := 16
  const CONTEXT_NOT_FOUND: byte := 64
  const MANDATORY_IE_MISSING: byte := 70
  const SYSTEM_FAILURE: byte := 72

  const DROP: byte := 1
  const FORW: byte := 2
  const ACCESS: byte := 0

  datatype DropReason = NoReason | ReleaseAccess | Policy

  datatype FAR = FAR(action: byte, dest: byte, outer: FTEID, reason: DropReason)

  /** The part of a bearer these procedures touch. */
  datatype Access = Access(enb: FTEID, pdrDL: u32, farDL: u32, deleting: bool)

  /** A session with the FARs of its PFCP session; only a bound session has one. */
  datatype Sess = Sess(defaultEBI: byte, bound: bool, bearers: map<byte, Access>, fars: map<u32, FAR>)

  // ---- The SGW-U --------------------------------------------------------------

  /** One FAR update; the outer header is only sent when both of its parts are there. */
  datatype Update = Update(farID: u32, action: byte, dest: byte, outer: Option<FTEID>)

  predicate HasFORW(action: byte) {
    action / 2 % 2 == 1
  }

  predicate HasDROP(action: byte) {
    action % 2 == 1
  }

  function Updated(f: FAR, u: Update): FAR {
    FAR(u.action, u.dest, if u.outer.Some? then u.outer.value else f.outer,
        if HasFORW(u.action) then NoReason
        else if HasDROP(u.action) && HasFORW(f.action) && f.dest == ACCESS then ReleaseAccess
        else if HasDROP(u.action) && f.reason == NoReason then Policy
        else f.reason)
  }

  function ApplyAll(fars: map<u32, FAR>, us: seq<Update>): map<u32, FAR> {
    if us == [] then fars
    else
      var before := ApplyAll(fars, us[..|us| - 1]);
      var u := us[|us| - 1];
      if u.farID in before then before[u.farID := Updated(before[u.farID], u)] else before
  }

  /** An update of a FAR that does not exist rejects the whole request. */
  predicate Applicable(fars: map<u32, FAR>, us: seq<Update>) {
    forall i :: 0 <= i < |us| ==> us[i].farID in fars
  }

  /** A modification reaches the SGW-U or fails on the way; reach stands for the transport. */
  predicate Succeeds(s: Sess, us: seq<Update>, reach: bool) {
    reach && Applicable(s.fars, us)
  }

  function Modified(s: Sess, us: seq<Update>, reach: bool): Sess {
    if Succeeds(s, us, reach) then s.(fars := ApplyAll(s.fars, us)) else s
  }

  // ---- Rule identifiers -------------------------------------------------------

  /** A bearer's downlink FAR; only the default bearer may fall back to rule 2. */
  function DownlinkFAR(s: Sess, ebi: byte): Option<u32>
    requires ebi in s.bearers
  {
    var b := s.bearers[ebi];
    if b.pdrDL % 0x1_0000 != 0 && b.farDL != 0 then Some(b.farDL)
    else if ebi == s.defaultEBI then Some(2)
    else None
  }

  /** No two bearers share a downlink FAR. */
  predicate OwnFARs(s: Sess) {
    forall a, b :: a in s.bearers && b in s.bearers && a != b && DownlinkFAR(s, a).Some? ==>
      DownlinkFAR(s, a) != DownlinkFAR(s, b)
  }

  // ---- Agreement --------------------------------------------------------------

  /** Packets matched by this FAR leave for an eNodeB. */
  predicate Forwards(f: FAR) {
    HasFORW(f.action) && f.outer.ipv4.Some?
  }

  /** A downlink FAR forwards only to the endpoint stored on its bearer. */
  predicate Agree(s: Sess) {
    s.bound ==>
      forall e :: e in s.bearers && DownlinkFAR(s, e).Some? && DownlinkFAR(s, e).value in s.fars &&
                  Forwards(s.fars[DownlinkFAR(s, e).value]) ==>
        s.fars[DownlinkFAR(s, e).value].outer == s.bearers[e].enb
  }

  predicate WellFormed(f: FTEID) {
    f.teid != 0 && f.ipv4.Some?
  }

  function ForwardTo(farID: u32, f: FTEID): Update {
    Update(farID, FORW, ACCESS, if WellFormed(f) then Some(f) else None)
  }

  // ---- Moving one bearer ------------------------------------------------------

  /** Stores the endpoint and updates the FAR, or leaves both alone. */
  function Moved(s: Sess, ebi: byte, f: FTEID, reach: bool): Sess
    requires ebi in s.bearers
  {
    match DownlinkFAR(s, ebi)
    case None => s
    case Some(far) =>
      var us := [ForwardTo(far, f)];
      if Succeeds(s, us, reach) then
        Modified(s, us, reach).(bearers := s.bearers[ebi := s.bearers[ebi].(enb := f)])
      else s
  }

  predicate Moves(s: Sess, ebi: byte, f: FTEID, reach: bool)
    requires ebi in s.bearers
  {
    DownlinkFAR(s, ebi).Some? && reach && DownlinkFAR(s, ebi).value in s.fars
  }

  lemma MovedFields(s: Sess, ebi: byte, f: FTEID, reach: bool)
    requires ebi in s.bearers
    ensures var t := Moved(s, ebi, f, reach);
            if Moves(s, ebi, f, reach) then
              var far := DownlinkFAR(s, ebi).value;
              t == s.(bearers := s.bearers[ebi := s.bearers[ebi].(enb := f)],
                      fars := s.fars[far := Updated(s.fars[far], ForwardTo(far, f))])
            else t == s
  {
    if DownlinkFAR(s, ebi).Some? {
      var u := ForwardTo(DownlinkFAR(s, ebi).value, f);
      assert [u][0] == u && [u][..0] == [] && ApplyAll(s.fars, []) == s.fars;
      assert Applicable(s.fars, [u]) <==> u.farID in s.fars;
      hide Updated, DownlinkFAR;
    }
  }

  lemma MovedKeepsRules(s: Sess, ebi: byte, f: FTEID, reach: bool)
    requires ebi in s.bearers
    ensures var t := Moved(s, ebi, f, reach);
            && t.bearers.Keys == s.bearers.Keys && t.defaultEBI == s.defaultEBI && t.bound == s.bound
            && (forall e :: e in s.bearers ==> DownlinkFAR(t, e) == DownlinkFAR(s, e))
            && (OwnFARs(s) ==> OwnFARs(t))
            && (forall e :: e in s.bearers && e != ebi ==> t.bearers[e] == s.bearers[e])
  {
    MovedFields(s, ebi, f, reach);
    hide Moved, Updated, Moves;
  }

  /**
   * Exactly when moving a bearer keeps agreement: the new endpoint is complete, or the move
   * fails, or the FAR had no endpoint before, or had this very one. An incomplete endpoint
   * switches the FAR to forwarding without replacing its old endpoint.
   */
  lemma MoveKeepsAgreementIff(s: Sess, ebi: byte, f: FTEID, reach: bool)
    requires ebi in s.bearers && s.bound && OwnFARs(s) && Agree(s)
    ensures Agree(Moved(s, ebi, f, reach)) <==>
            || WellFormed(f)
            || !Moves(s, ebi, f, reach)
            || s.fars[DownlinkFAR(s, ebi).value].outer.ipv4.None?
            || s.fars[DownlinkFAR(s, ebi).value].outer == f
  {
    MovedFields(s, ebi, f, reach);
    MovedKeepsRules(s, ebi, f, reach);
    hide Moved;
    var t := Moved(s, ebi, f, reach);
    if Moves(s, ebi, f, reach) {
      var far := DownlinkFAR(s, ebi).value;
      assert HasFORW(FORW);
      assert forall e :: e in s.bearers && e != ebi && DownlinkFAR(s, e).Some? ==> DownlinkFAR(s, e).value != far;
      assert Agree(t) <==> (Forwards(t.fars[far]) ==> t.fars[far].outer == f) by {
        if Forwards(t.fars[far]) ==> t.fars[far].outer == f {
          forall e | e in t.bearers && DownlinkFAR(t, e).Some? && DownlinkFAR(t, e).value in t.fars &&
                     Forwards(t.fars[DownlinkFAR(t, e).value])
            ensures t.fars[DownlinkFAR(t, e).value].outer == t.bearers[e].enb
          {
            if e != ebi {
              assert t.fars[DownlinkFAR(t, e).value] == s.fars[DownlinkFAR(s, e).value];
            }
          }
        }
      }
    }
  }

  /** A successful move is reported only when the user plane really sends there. */
  lemma MovedForwardsThere(s: Sess, ebi: byte, f: FTEID, reach: bool)
    requires ebi in s.bearers && WellFormed(f) && Moves(s, ebi, f, reach)
    ensures var t := Moved(s, ebi, f, reach);
            && t.bearers[ebi].enb == f
            && var far := DownlinkFAR(s, ebi).value;
               far in t.fars && Forwards(t.fars[far]) && t.fars[far].outer == f
  {
    MovedFields(s, ebi, f, reach);
    hide Moved;
  }

  // ---- Sibling bearers --------------------------------------------------------

  /** The other bearers of the session follow the default bearer, unless the request names them. */
  function Follow(s: Sess, order: seq<byte>, requested: set<byte>, f: FTEID, reach: set<byte>): Sess {
    if order == [] then s
    else
      var t := Follow(s, order[..|order| - 1], requested, f, reach);
      var e := order[|order| - 1];
      if e in t.bearers && e != t.defaultEBI && e !in requested && !t.bearers[e].deleting
      then Moved(t, e, f, e in reach) else t
  }

  function RestoreSiblings(s: Sess, order: seq<byte>, requested: set<byte>, f: FTEID, reach: set<byte>): Sess {
    if WellFormed(f) then Follow(s, order, requested, f, reach) else s
  }

  lemma {:induction false} FollowKeepsAgreement(s: Sess, order: seq<byte>, requested: set<byte>, f: FTEID, reach: set<byte>)
    requires s.bound && OwnFARs(s) && Agree(s) && WellFormed(f)
    ensures var t := Follow(s, order, requested, f, reach);
            t.bound && OwnFARs(t) && Agree(t) && t.bearers.Keys == s.bearers.Keys && t.defaultEBI == s.defaultEBI
  {
    if order != [] {
      hide Moved, Agree, OwnFARs;
      FollowKeepsAgreement(s, order[..|order| - 1], requested, f, reach);
      var t := Follow(s, order[..|order| - 1], requested, f, reach);
      var e := order[|order| - 1];
      if e in t.bearers {
        MoveKeepsAgreementIff(t, e, f, e in reach);
        MovedKeepsRules(t, e, f, e in reach);
      }
    }
  }

  /**
   * A bearer that is to follow the default bearer to a complete endpoint: listed, not named by
   * the request, not being deleted, with a downlink FAR that the SGW-U has and is reached for.
   */
  predicate ToRestore(s: Sess, e: byte, order: seq<byte>, requested: set<byte>, f: FTEID, reach: set<byte>)
    requires e in s.bearers
  {
    && f.teid != 0 && f.ipv4.Some?
    && e in order && e != s.defaultEBI && e !in requested && !s.bearers[e].deleting
    && DownlinkFAR(s, e).Some? && DownlinkFAR(s, e).value in s.fars && e in reach
  }

  predicate SameBearer(s: Sess, t: Sess, e: byte)
    requires e in s.bearers
  {
    && e in t.bearers && t.bearers[e] == s.bearers[e]
    && (DownlinkFAR(s, e).Some? && DownlinkFAR(s, e).value in s.fars ==>
          DownlinkFAR(s, e).value in t.fars && t.fars[DownlinkFAR(s, e).value] == s.fars[DownlinkFAR(s, e).value])
  }

  /** The bearer stores the endpoint and its FAR forwards there. */
  predicate At(s: Sess, t: Sess, e: byte, f: FTEID)
    requires e in s.bearers && DownlinkFAR(s, e).Some?
  {
    && e in t.bearers && t.bearers[e] == s.bearers[e].(enb := f)
    && DownlinkFAR(s, e).value in t.fars && t.fars[DownlinkFAR(s, e).value] == FAR(FORW, ACCESS, f, NoReason)
  }

  lemma MovedAt(s: Sess, ebi: byte, f: FTEID, reach: bool, e: byte)
    requires OwnFARs(s) && ebi in s.bearers && e in s.bearers
    ensures var t := Moved(s, ebi, f, reach);
            if e == ebi && Moves(s, ebi, f, reach) then WellFormed(f) ==> At(s, t, e, f) else SameBearer(s, t, e)
  {
    MovedFields(s, ebi, f, reach);
    assert HasFORW(FORW);
    if e != ebi {
      DistinctFARs(s, ebi, e);
    }
    hide Moved, OwnFARs;
  }

  lemma {:induction false} FollowMoves(s: Sess, order: seq<byte>, requested: set<byte>, f: FTEID, reach: set<byte>, e: byte)
    requires OwnFARs(s) && WellFormed(f) && e in s.bearers
    ensures var t := Follow(s, order, requested, f, reach);
            && t.bearers.Keys == s.bearers.Keys && t.fars.Keys == s.fars.Keys && t.defaultEBI == s.defaultEBI && OwnFARs(t)
            && DownlinkFAR(t, e) == DownlinkFAR(s, e)
            && if ToRestore(s, e, order, requested, f, reach) then At(s, t, e, f) else SameBearer(s, t, e)
  {
    if order != [] {
      hide Moved, OwnFARs, DownlinkFAR, WellFormed;
      var n := |order| - 1;
      FollowMoves(s, order[..n], requested, f, reach, e);
      var t, x := Follow(s, order[..n], requested, f, reach), order[n];
      assert order == order[..n] + [x];
      if x in t.bearers {
        MovedAt(t, x, f, x in reach, e);
        MovedKeepsRules(t, x, f, x in reach);
        MovedFields(t, x, f, x in reach);
      }
    }
  }

  /** Who is restored, and that nobody else is touched. */
  lemma RestoredSiblings(s: Sess, order: seq<byte>, requested: set<byte>, f: FTEID, reach: set<byte>, e: byte)
    requires OwnFARs(s) && e in s.bearers
    ensures var t := RestoreSiblings(s, order, requested, f, reach);
            && t.bearers.Keys == s.bearers.Keys && t.fars.Keys == s.fars.Keys && DownlinkFAR(t, e) == DownlinkFAR(s, e)
            && if ToRestore(s, e, order, requested, f, reach) then At(s, t, e, f) else SameBearer(s, t, e)
  {
    hide OwnFARs, DownlinkFAR;
    if WellFormed(f) {
      FollowMoves(s, order, requested, f, reach, e);
    }
  }

  lemma RestoredAll(s: Sess, order: seq<byte>, requested: set<byte>, f: FTEID, reach: set<byte>)
    ensures OwnFARs(s) ==> forall e :: e in s.bearers ==>
              if ToRestore(s, e, order, requested, f, reach) then At(s, RestoreSiblings(s, order, requested, f, reach), e, f)
              else SameBearer(s, RestoreSiblings(s, order, requested, f, reach), e)
  {
    hide OwnFARs, RestoreSiblings, At, SameBearer;
    if OwnFARs(s) {
      forall e | e in s.bearers
        ensures if ToRestore(s, e, order, requested, f, reach) then At(s, RestoreSiblings(s, order, requested, f, reach), e, f)
                else SameBearer(s, RestoreSiblings(s, order, requested, f, reach), e)
      {
        RestoredSiblings(s, order, requested, f, reach, e);
      }
    }
  }

  // ---- The Modify Bearer Request ----------------------------------------------

  /** One bearer context: its EBI and its eNodeB endpoint, with what the transport does to the updates it causes. */
  datatype Context = Context(ebi: byte, enb: Option<FTEID>, reach: bool, order: seq<byte>, siblingReach: set<byte>)

  /** The last session of the UE that owns a bearer. */
  function OwnerOf(ss: seq<Sess>, ebi: byte): Option<nat> {
    if ss == [] then None
    else if ebi in ss[|ss| - 1].bearers then Some(|ss| - 1)
    else OwnerOf(ss[..|ss| - 1], ebi)
  }

  lemma {:induction false} OwnerIsLast(ss: seq<Sess>, ebi: byte)
    ensures match OwnerOf(ss, ebi)
            case None => forall i :: 0 <= i < |ss| ==> ebi !in ss[i].bearers
            case Some(i) => i < |ss| && ebi in ss[i].bearers && forall j :: i < j < |ss| ==> ebi !in ss[j].bearers
  {
    if ss != [] {
      OwnerIsLast(ss[..|ss| - 1], ebi);
    }
  }

  function MoveOne(s: Sess, c: Context, requested: set<byte>): Sess
    requires c.ebi in s.bearers && c.enb.Some?
  {
    var t := Moved(s, c.ebi, c.enb.value, c.reach);
    if Moves(s, c.ebi, c.enb.value, c.reach) && c.ebi == s.defaultEBI
    then RestoreSiblings(t, c.order, requested, c.enb.value, c.siblingReach) else t
  }

  function ContextCause(ss: seq<Sess>, c: Context): byte {
    if c.enb.None? then MANDATORY_IE_MISSING
    else
      match OwnerOf(ss, c.ebi)
      case None => CONTEXT_NOT_FOUND
      case Some(i) =>
        if i < |ss| && ss[i].bound && c.ebi in ss[i].bearers && Moves(ss[i], c.ebi, c.enb.value, c.reach)
        then ACCEPTED else SYSTEM_FAILURE
  }

  function AfterContext(ss: seq<Sess>, c: Context, requested: set<byte>): seq<Sess> {
    match OwnerOf(ss, c.ebi)
    case None => ss
    case Some(i) =>
      if c.enb.Some? && i < |ss| && ss[i].bound && c.ebi in ss[i].bearers
      then ss[i := MoveOne(ss[i], c, requested)] else ss
  }

  function RequestedEBIs(cs: seq<Context>): set<byte> {
    set c | c in cs :: c.ebi
  }

  function AfterContexts(ss: seq<Sess>, cs: seq<Context>, requested: set<byte>): seq<Sess> {
    if cs == [] then ss else AfterContext(AfterContexts(ss, cs[..|cs| - 1], requested), cs[|cs| - 1], requested)
  }

  function Causes(ss: seq<Sess>, cs: seq<Context>, requested: set<byte>): seq<byte> {
    if cs == [] then []
    else
      var n := |cs| - 1;
      Causes(ss, cs[..n], requested) + [ContextCause(AfterContexts(ss, cs[..n], requested), cs[n])]
  }

  predicate Sound(ss: seq<Sess>) {
    forall i :: 0 <= i < |ss| ==> OwnFARs(ss[i]) && Agree(ss[i])
  }

  lemma ContextKeepsSound(ss: seq<Sess>, c: Context, requested: set<byte>)
    requires Sound(ss) && (c.enb.Some? ==> WellFormed(c.enb.value))
    ensures Sound(AfterContext(ss, c, requested))
  {
    hide Moved, Agree, OwnFARs, Follow;
    OwnerIsLast(ss, c.ebi);
    var o := OwnerOf(ss, c.ebi);
    if o.Some? && c.enb.Some? && ss[o.value].bound {
      var s, f := ss[o.value], c.enb.value;
      MoveKeepsAgreementIff(s, c.ebi, f, c.reach);
      MovedKeepsRules(s, c.ebi, f, c.reach);
      FollowKeepsAgreement(Moved(s, c.ebi, f, c.reach), c.order, requested, f, c.siblingReach);
    }
  }

  /** Siblings own other FARs, so restoring them leaves the default bearer where it was put. */
  lemma {:induction false} FollowKeepsDefault(s: Sess, order: seq<byte>, requested: set<byte>, f: FTEID, reach: set<byte>)
    requires OwnFARs(s) && s.defaultEBI in s.bearers && DownlinkFAR(s, s.defaultEBI).Some?
    ensures var t, far := Follow(s, order, requested, f, reach), DownlinkFAR(s, s.defaultEBI).value;
            && OwnFARs(t) && t.bearers.Keys == s.bearers.Keys && t.defaultEBI == s.defaultEBI
            && t.bearers[s.defaultEBI] == s.bearers[s.defaultEBI] && DownlinkFAR(t, s.defaultEBI) == Some(far)
            && (far in t.fars <==> far in s.fars) && (far in s.fars ==> t.fars[far] == s.fars[far])
  {
    if order != [] {
      hide Moved, OwnFARs, Updated;
      FollowKeepsDefault(s, order[..|order| - 1], requested, f, reach);
      var t := Follow(s, order[..|order| - 1], requested, f, reach);
      var e := order[|order| - 1];
      if e in t.bearers && e != t.defaultEBI {
        MovedFields(t, e, f, e in reach);
        MovedKeepsRules(t, e, f, e in reach);
        DistinctFARs(t, e, t.defaultEBI);
      }
    }
  }

  lemma DistinctFARs(s: Sess, a: byte, b: byte)
    requires OwnFARs(s) && a in s.bearers && b in s.bearers && a != b
    ensures DownlinkFAR(s, a).Some? ==> DownlinkFAR(s, a) != DownlinkFAR(s, b)
  {
  }

  /** A context that is not accepted changes no session; an accepted one, default or not, is where the packets now go. */
  lemma ContextOutcome(ss: seq<Sess>, c: Context, requested: set<byte>)
    requires (c.enb.Some? ==> WellFormed(c.enb.value)) && forall i :: 0 <= i < |ss| ==> OwnFARs(ss[i])
    ensures ContextCause(ss, c) != ACCEPTED ==> AfterContext(ss, c, requested) == ss
    ensures ContextCause(ss, c) == ACCEPTED ==>
              var o := OwnerOf(ss, c.ebi);
              && c.enb.Some? && o.Some? && o.value < |ss| && c.ebi in ss[o.value].bearers
              && DownlinkFAR(ss[o.value], c.ebi).Some?
              && var t, far := AfterContext(ss, c, requested)[o.value], DownlinkFAR(ss[o.value], c.ebi).value;
                 && c.ebi in t.bearers && t.bearers[c.ebi].enb == c.enb.value
                 && far in t.fars && Forwards(t.fars[far]) && t.fars[far].outer == c.enb.value
  {
    hide Moved, Forwards, Follow, OwnFARs;
    OwnerIsLast(ss, c.ebi);
    var o := OwnerOf(ss, c.ebi);
    if o.Some? && c.enb.Some? {
      var s, f := ss[o.value], c.enb.value;
      MovedFields(s, c.ebi, f, c.reach);
      if Moves(s, c.ebi, f, c.reach) {
        MovedForwardsThere(s, c.ebi, f, c.reach);
        MovedKeepsRules(s, c.ebi, f, c.reach);
        if c.ebi == s.defaultEBI {
          FollowKeepsDefault(Moved(s, c.ebi, f, c.reach), c.order, requested, f, c.siblingReach);
        }
      }
    }
  }

  /** The session a context is about: the last of the UE's that owns its bearer. */
  ghost predicate Concerns(ss: seq<Sess>, ebi: byte, i: int) {
    0 <= i < |ss| && ebi in ss[i].bearers && forall j :: i < j < |ss| ==> ebi !in ss[j].bearers
  }

  /**
   * A context is accepted exactly when it carries an endpoint, its session is bound, and the
   * SGW-U is reached and has the bearer's downlink FAR: its own, or 2 for a default bearer
   * without rule identifiers. A PDR identifier counts by its lower 16 bits.
   */
  lemma ContextAcceptedIff(ss: seq<Sess>, c: Context)
    ensures ContextCause(ss, c) == MANDATORY_IE_MISSING <==> c.enb.None?
    ensures ContextCause(ss, c) == CONTEXT_NOT_FOUND <==> c.enb.Some? && forall i :: 0 <= i < |ss| ==> c.ebi !in ss[i].bearers
    ensures forall i :: Concerns(ss, c.ebi, i) && c.enb.Some? ==>
              var s, b := ss[i], ss[i].bearers[c.ebi];
              var own := b.pdrDL % 0x1_0000 != 0 && b.farDL != 0;
              && (ContextCause(ss, c) == ACCEPTED <==>
                    s.bound && c.reach && if own then b.farDL in s.fars else c.ebi == s.defaultEBI && 2 in s.fars)
              && ContextCause(ss, c) in {ACCEPTED, SYSTEM_FAILURE}
  {
    OwnerIsLast(ss, c.ebi);
  }

  /**
   * What an accepted context does to the other bearers of its session: for the default bearer,
   * every bearer that is to follow stores the new endpoint and forwards there; every other one
   * keeps its endpoint and its FAR, and so do all other sessions.
   */
  lemma SiblingsFollow(ss: seq<Sess>, c: Context, requested: set<byte>, i: int, e: byte)
    requires Concerns(ss, c.ebi, i) && OwnFARs(ss[i]) && ContextCause(ss, c) == ACCEPTED
    requires e in ss[i].bearers && e != c.ebi
    ensures c.enb.Some? && |AfterContext(ss, c, requested)| == |ss|
    ensures forall j :: 0 <= j < |ss| && j != i ==> AfterContext(ss, c, requested)[j] == ss[j]
    ensures var s, t, f := ss[i], AfterContext(ss, c, requested)[i], c.enb.value;
            if c.ebi == s.defaultEBI && ToRestore(s, e, c.order, requested, f, c.siblingReach) then At(s, t, e, f)
            else SameBearer(s, t, e)
  {
    hide Moved, DownlinkFAR, OwnFARs, RestoreSiblings;
    OwnerIsLast(ss, c.ebi);
    var s, f := ss[i], c.enb.value;
    var t := Moved(s, c.ebi, f, c.reach);
    MovedKeepsRules(s, c.ebi, f, c.reach);
    MovedAt(s, c.ebi, f, c.reach, e);
    MovedFields(s, c.ebi, f, c.reach);
    RestoredSiblings(t, c.order, requested, f, c.siblingReach, e);
  }

  lemma {:induction false} ContextsKeepSound(ss: seq<Sess>, cs: seq<Context>, requested: set<byte>)
    requires Sound(ss) && forall i :: 0 <= i < |cs| && cs[i].enb.Some? ==> WellFormed(cs[i].enb.value)
    ensures Sound(AfterContexts(ss, cs, requested))
  {
    if cs != [] {
      hide Sound, AfterContext;
      ContextsKeepSound(ss, cs[..|cs| - 1], requested);
      ContextKeepsSound(AfterContexts(ss, cs[..|cs| - 1], requested), cs[|cs| - 1], requested);
    }
  }

  // ---- Release Access Bearers -------------------------------------------------

  predicate AllHaveRules(s: Sess) {
    forall e :: e in s.bearers ==> DownlinkFAR(s, e).Some?
  }

  /** Dropping every bearer of the session, in one modification. */
  function DropUpdates(s: Sess, order: seq<byte>): seq<Update>
    requires forall e :: e in order ==> e in s.bearers && DownlinkFAR(s, e).Some?
  {
    if order == [] then []
    else DropUpdates(s, order[..|order| - 1]) + [Update(DownlinkFAR(s, order[|order| - 1]).value, DROP, ACCESS, None)]
  }

  predicate Enumerates(order: seq<byte>, bearers: map<byte, Access>) {
    (forall e :: e in order ==> e in bearers) && (forall e :: e in bearers ==> e in order)
  }

  /** The SGW-U part for one session: an unbound one is skipped, a bound one must take the update. */
  predicate DropsOk(s: Sess, order: seq<byte>, reach: bool)
    requires Enumerates(order, s.bearers)
  {
    !s.bound || (AllHaveRules(s) && (order == [] || Succeeds(s, DropUpdates(s, order), reach)))
  }

  function Dropped(s: Sess, order: seq<byte>, reach: bool): Sess
    requires Enumerates(order, s.bearers)
  {
    if s.bound && AllHaveRules(s) && order != [] then Modified(s, DropUpdates(s, order), reach) else s
  }

  lemma {:induction false} DropUpdatesAre(s: Sess, order: seq<byte>)
    requires forall e :: e in order ==> e in s.bearers && DownlinkFAR(s, e).Some?
    ensures var us := DropUpdates(s, order);
            && |us| == |order|
            && forall i :: 0 <= i < |us| ==> us[i] == Update(DownlinkFAR(s, order[i]).value, DROP, ACCESS, None)
  {
    if order != [] {
      assert forall e :: e in order[..|order| - 1] ==> e in order;
      DropUpdatesAre(s, order[..|order| - 1]);
    }
  }

  /** A FAR at DROP that remembers whether it was forwarding to the access side. */
  function AtDrop(f: FAR): FAR {
    FAR(DROP, ACCESS, f.outer,
        if f.action / 2 % 2 == 1 && f.dest == ACCESS then ReleaseAccess else if f.reason == NoReason then Policy else f.reason)
  }

  lemma DropSettles(f: FAR, u: Update)
    requires u.action == DROP && u.dest == ACCESS && u.outer == None
    ensures Updated(f, u) == AtDrop(f) == Updated(AtDrop(f), u) && !HasFORW(AtDrop(f).action)
  {
  }

  /** After drop updates a named FAR no longer forwards, and says why; every other one is untouched. */
  lemma {:induction false} DropsStopForwarding(fars: map<u32, FAR>, us: seq<Update>)
    requires Applicable(fars, us) && forall i :: 0 <= i < |us| ==> us[i].action == DROP && us[i].dest == ACCESS && us[i].outer == None
    ensures ApplyAll(fars, us).Keys == fars.Keys
    ensures forall x :: x in fars && (exists i :: 0 <= i < |us| && us[i].farID == x) ==>
              ApplyAll(fars, us)[x] == AtDrop(fars[x]) && !HasFORW(ApplyAll(fars, us)[x].action)
    ensures forall x :: x in fars && (forall i :: 0 <= i < |us| ==> us[i].farID != x) ==> ApplyAll(fars, us)[x] == fars[x]
  {
    if us != [] {
      var n := |us| - 1;
      hide Updated, AtDrop, HasFORW;
      DropsStopForwarding(fars, us[..n]);
      assert ApplyAll(fars, us) == ApplyAll(fars, us[..n])[us[n].farID := Updated(ApplyAll(fars, us[..n])[us[n].farID], us[n])];
      DropSettles(fars[us[n].farID], us[n]);
      forall x | x in fars && (exists i :: 0 <= i < |us| && us[i].farID == x)
        ensures ApplyAll(fars, us)[x] == AtDrop(fars[x]) && !HasFORW(AtDrop(fars[x]).action)
      {
        DropSettles(fars[x], us[n]);
        if x != us[n].farID {
          var i :| 0 <= i < |us| && us[i].farID == x;
          assert us[..n][i].farID == x;
        }
      }
    }
  }

  lemma DroppedFields(s: Sess, order: seq<byte>, reach: bool)
    requires Enumerates(order, s.bearers)
    ensures var t := Dropped(s, order, reach);
            && t == s.(fars := t.fars)
            && (t == s || forall e :: e in s.bearers && DownlinkFAR(s, e).Some? && DownlinkFAR(s, e).value in t.fars ==>
                  !HasFORW(t.fars[DownlinkFAR(s, e).value].action))
            && (s.bound && DropsOk(s, order, reach) ==>
                  forall e :: e in s.bearers ==> DownlinkFAR(s, e).Some? && (DownlinkFAR(s, e).value in t.fars ==>
                    !HasFORW(t.fars[DownlinkFAR(s, e).value].action)))
  {
    hide Updated, HasFORW, DownlinkFAR;
    if s.bound && AllHaveRules(s) && order != [] {
      DropUpdatesAre(s, order);
      var us := DropUpdates(s, order);
      if Succeeds(s, us, reach) {
        DropsStopForwarding(s.fars, us);
        forall e | e in s.bearers ensures exists i :: 0 <= i < |us| && us[i].farID == DownlinkFAR(s, e).value {
          var i :| 0 <= i < |order| && order[i] == e;
          assert us[i].farID == DownlinkFAR(s, e).value;
        }
      }
    }
  }

  function ClearENBs(s: Sess): Sess {
    s.(bearers := map e | e in s.bearers :: s.bearers[e].(enb := NO_FTEID))
  }

  /** The first session whose SGW-U part fails, or the number of sessions. */
  function FirstFailure(ss: seq<Sess>, orders: seq<seq<byte>>, reach: seq<bool>): (k: nat)
    requires |ss| == |orders| == |reach| && forall i :: 0 <= i < |ss| ==> Enumerates(orders[i], ss[i].bearers)
    ensures k <= |ss|
    ensures forall i :: 0 <= i < k ==> DropsOk(ss[i], orders[i], reach[i])
    ensures k < |ss| ==> !DropsOk(ss[k], orders[k], reach[k])
  {
    FailureFrom(ss, orders, reach, 0)
  }

  function FailureFrom(ss: seq<Sess>, orders: seq<seq<byte>>, reach: seq<bool>, from: nat): (k: nat)
    requires |ss| == |orders| == |reach| && from <= |ss| && forall i :: 0 <= i < |ss| ==> Enumerates(orders[i], ss[i].bearers)
    ensures from <= k <= |ss|
    ensures forall i :: from <= i < k ==> DropsOk(ss[i], orders[i], reach[i])
    ensures k < |ss| ==> !DropsOk(ss[k], orders[k], reach[k])
    decreases |ss| - from
  {
    if from == |ss| || !DropsOk(ss[from], orders[from], reach[from]) then from else FailureFrom(ss, orders, reach, from + 1)
  }

  /**
   * Sessions are dropped in order and the first failure ends the procedure: a release is
   * accepted when every session's SGW-U part succeeded; only then are the endpoints cleared.
   */
  function Released(ss: seq<Sess>, orders: seq<seq<byte>>, reach: seq<bool>): seq<Sess>
    requires |ss| == |orders| == |reach| && forall i :: 0 <= i < |ss| ==> Enumerates(orders[i], ss[i].bearers)
  {
    var k := FirstFailure(ss, orders, reach);
    seq(|ss|, i requires 0 <= i < |ss| =>
      if k == |ss| then ClearENBs(Dropped(ss[i], orders[i], reach[i]))
      else if i < k then Dropped(ss[i], orders[i], reach[i])
      else ss[i])
  }

  lemma DroppedAgrees(s: Sess, order: seq<byte>, reach: bool)
    requires Enumerates(order, s.bearers) && OwnFARs(s) && Agree(s)
    ensures OwnFARs(Dropped(s, order, reach)) && Agree(Dropped(s, order, reach))
  {
    DroppedFields(s, order, reach);
    hide Dropped;
  }

  /** Released everywhere: no downlink FAR forwards, and no endpoint is stored. */
  lemma ClearedAgrees(s: Sess, order: seq<byte>, reach: bool)
    requires Enumerates(order, s.bearers) && OwnFARs(s) && DropsOk(s, order, reach)
    ensures var t := ClearENBs(Dropped(s, order, reach));
            && OwnFARs(t) && Agree(t)
            && (forall e :: e in t.bearers ==> t.bearers[e].enb == NO_FTEID)
            && (t.bound ==> forall e :: e in t.bearers && DownlinkFAR(t, e).Some? && DownlinkFAR(t, e).value in t.fars ==>
                  !Forwards(t.fars[DownlinkFAR(t, e).value]))
  {
    DroppedFields(s, order, reach);
    hide Dropped, DropsOk;
    var t := ClearENBs(Dropped(s, order, reach));
    assert forall e :: e in s.bearers ==> DownlinkFAR(t, e) == DownlinkFAR(s, e);
  }

  lemma ReleaseKeepsSound(ss: seq<Sess>, orders: seq<seq<byte>>, reach: seq<bool>)
    requires |ss| == |orders| == |reach| && forall i :: 0 <= i < |ss| ==> Enumerates(orders[i], ss[i].bearers)
    requires Sound(ss)
    ensures Sound(Released(ss, orders, reach))
    ensures FirstFailure(ss, orders, reach) == |ss| ==>
              forall i :: 0 <= i < |ss| ==>
                forall e :: e in Released(ss, orders, reach)[i].bearers ==> Released(ss, orders, reach)[i].bearers[e].enb == NO_FTEID
  {
    hide Agree, OwnFARs, Dropped, DropsOk, ClearENBs, Enumerates;
    forall i | 0 <= i < |ss| ensures var t := Released(ss, orders, reach)[i];
      OwnFARs(t) && Agree(t) &&
      (FirstFailure(ss, orders, reach) == |ss| ==> forall e :: e in t.bearers ==> t.bearers[e].enb == NO_FTEID)
    {
      DroppedAgrees(ss[i], orders[i], reach[i]);
      if FirstFailure(ss, orders, reach) == |ss| {
        ClearedAgrees(ss[i], orders[i], reach[i]);
      }
    }
  }

  /** The SGW-U can take a session's part of a release: every bearer has a downlink FAR, and the SGW-U has it. */
  predicate CanDrop(s: Sess, reach: bool) {
    !s.bound || s.bearers == map[] ||
    (reach && forall e :: e in s.bearers ==> DownlinkFAR(s, e).Some? && DownlinkFAR(s, e).value in s.fars)
  }

  lemma NamedByUpdate(s: Sess, order: seq<byte>, e: byte) returns (i: nat)
    requires Enumerates(order, s.bearers) && AllHaveRules(s) && e in s.bearers
    ensures i < |order| && order[i] == e && i < |DropUpdates(s, order)| && DropUpdates(s, order)[i].farID == DownlinkFAR(s, e).value
  {
    hide DownlinkFAR, DropUpdates;
    DropUpdatesAre(s, order);
    i :| 0 <= i < |order| && order[i] == e;
  }

  lemma ApplicableIff(s: Sess, order: seq<byte>)
    requires Enumerates(order, s.bearers) && AllHaveRules(s)
    ensures Applicable(s.fars, DropUpdates(s, order)) <==> forall e :: e in s.bearers ==> DownlinkFAR(s, e).value in s.fars
  {
    hide DownlinkFAR, DropUpdates, Enumerates;
    AllListed(s, order);
    if Applicable(s.fars, DropUpdates(s, order)) {
      forall e | e in s.bearers ensures DownlinkFAR(s, e).value in s.fars {
        var i := NamedByUpdate(s, order, e);
      }
    } else {
      DropUpdatesAre(s, order);
    }
  }

  lemma AllListed(s: Sess, order: seq<byte>)
    requires Enumerates(order, s.bearers) && AllHaveRules(s)
    ensures forall e :: e in order ==> e in s.bearers && DownlinkFAR(s, e).Some?
    ensures order == [] <==> s.bearers == map[]
  {
    hide DownlinkFAR;
    if order != [] {
      assert order[0] in s.bearers;
    }
  }

  lemma DropsOkIff(s: Sess, order: seq<byte>, reach: bool)
    requires Enumerates(order, s.bearers)
    ensures DropsOk(s, order, reach) <==> CanDrop(s, reach)
  {
    hide DownlinkFAR, DropUpdates, Applicable, Enumerates;
    if AllHaveRules(s) {
      ApplicableIff(s, order);
      AllListed(s, order);
    }
  }

  lemma DroppedFARs(s: Sess, order: seq<byte>, reach: bool, e: byte)
    requires Enumerates(order, s.bearers) && s.bound && CanDrop(s, reach) && e in s.bearers
    ensures DownlinkFAR(s, e).Some? && DownlinkFAR(s, e).value in s.fars && DownlinkFAR(s, e).value in Dropped(s, order, reach).fars
    ensures Dropped(s, order, reach).fars[DownlinkFAR(s, e).value] == AtDrop(s.fars[DownlinkFAR(s, e).value])
  {
    hide DownlinkFAR, AtDrop, DropUpdates, HasFORW, ApplyAll, Enumerates, Applicable;
    AllListed(s, order);
    ApplicableIff(s, order);
    DropUpdatesAre(s, order);
    var us := DropUpdates(s, order);
    DropsStopForwarding(s.fars, us);
    var i := NamedByUpdate(s, order, e);
    assert us[i].farID == DownlinkFAR(s, e).value;
  }

  /**
   * What a release leaves behind: with no failing session, every bearer loses its endpoint and
   * every bound session's downlink FARs drop, remembering that they were forwarding. Otherwise
   * all endpoints stay, and only the sessions before the first failing one drop.
   */
  lemma ReleaseOutcome(ss: seq<Sess>, orders: seq<seq<byte>>, reach: seq<bool>, i: nat)
    requires |ss| == |orders| == |reach| && forall i :: 0 <= i < |ss| ==> Enumerates(orders[i], ss[i].bearers)
    requires i < |ss|
    ensures var s, t := ss[i], Released(ss, orders, reach)[i];
            var accepted := forall j :: 0 <= j < |ss| ==> CanDrop(ss[j], reach[j]);
            && (accepted <==> FirstFailure(ss, orders, reach) == |ss|)
            && t.bearers == (if accepted then map e | e in s.bearers :: s.bearers[e].(enb := NO_FTEID) else s.bearers)
            && (if forall j :: 0 <= j <= i ==> CanDrop(ss[j], reach[j]) then
                  s.bound ==> forall e :: e in s.bearers ==>
                    DownlinkFAR(s, e).Some? && DownlinkFAR(s, e).value in s.fars && DownlinkFAR(s, e).value in t.fars &&
                    t.fars[DownlinkFAR(s, e).value] == AtDrop(s.fars[DownlinkFAR(s, e).value])
                else t == s)
  {
    hide DownlinkFAR, AtDrop, DropsOk, Dropped, Enumerates, CanDrop;
    forall j | 0 <= j < |ss| ensures DropsOk(ss[j], orders[j], reach[j]) <==> CanDrop(ss[j], reach[j]) {
      DropsOkIff(ss[j], orders[j], reach[j]);
    }
    DroppedFields(ss[i], orders[i], reach[i]);
    if ss[i].bound && CanDrop(ss[i], reach[i]) {
      forall e | e in ss[i].bearers
        ensures DownlinkFAR(ss[i], e).Some? && DownlinkFAR(ss[i], e).value in ss[i].fars &&
                DownlinkFAR(ss[i], e).value in Dropped(ss[i], orders[i], reach[i]).fars &&
                Dropped(ss[i], orders[i], reach[i]).fars[DownlinkFAR(ss[i], e).value] == AtDrop(ss[i].fars[DownlinkFAR(ss[i], e).value])
      {
        DroppedFARs(ss[i], orders[i], reach[i], e);
      }
    }
  }

  // ---- Runs -------------------------------------------------------------------

  /**
   * Besides the two procedures, a bearer may be added as Create Bearer leaves it, with a new
   * FAR that forwards to its endpoint, and a session may lose its SGW-U.
   */
  datatype Event =
    | Modify(contexts: seq<Context>)
    | Release(orders: seq<seq<byte>>, reach: seq<bool>)
    | Added(i: nat, ebi: byte, bearer: Access)
    | Lost(i: nat)

  predicate Allowed(ss: seq<Sess>, e: Event) {
    match e
    case Modify(cs) => forall i :: 0 <= i < |cs| && cs[i].enb.Some? ==> WellFormed(cs[i].enb.value)
    case Release(orders, reach) =>
      |ss| == |orders| == |reach| && forall i :: 0 <= i < |ss| ==> Enumerates(orders[i], ss[i].bearers)
    case Added(i, ebi, b) =>
      && i < |ss| && ebi !in ss[i].bearers && b.pdrDL % 0x1_0000 != 0 && b.farDL != 0
      && forall x :: x in ss[i].bearers ==> DownlinkFAR(ss[i], x) != Some(b.farDL)
    case Lost(i) => i < |ss|
  }

  function WithBearer(s: Sess, ebi: byte, b: Access): Sess {
    s.(bearers := s.bearers[ebi := b], fars := s.fars[b.farDL := FAR(FORW, ACCESS, b.enb, NoReason)])
  }

  function Step(ss: seq<Sess>, e: Event): seq<Sess>
    requires Allowed(ss, e)
  {
    match e
    case Modify(cs) => AfterContexts(ss, cs, RequestedEBIs(cs))
    case Release(orders, reach) => Released(ss, orders, reach)
    case Added(i, ebi, b) => ss[i := WithBearer(ss[i], ebi, b)]
    case Lost(i) => ss[i := ss[i].(bound := false, fars := map[])]
  }

  ghost predicate Legal(start: seq<Sess>, es: seq<Event>)
    decreases |es|, 0
  {
    es == [] || (Legal(start, es[..|es| - 1]) && Allowed(Run(start, es[..|es| - 1]), es[|es| - 1]))
  }

  ghost function Run(start: seq<Sess>, es: seq<Event>): seq<Sess>
    requires Legal(start, es)
    decreases |es|, 1
  {
    if es == [] then start else Step(Run(start, es[..|es| - 1]), es[|es| - 1])
  }

  lemma AddedAgrees(s: Sess, ebi: byte, b: Access)
    requires OwnFARs(s) && Agree(s) && ebi !in s.bearers && b.pdrDL % 0x1_0000 != 0 && b.farDL != 0
    requires forall x :: x in s.bearers ==> DownlinkFAR(s, x) != Some(b.farDL)
    ensures OwnFARs(WithBearer(s, ebi, b)) && Agree(WithBearer(s, ebi, b))
  {
    var t := WithBearer(s, ebi, b);
    assert DownlinkFAR(t, ebi) == Some(b.farDL);
    assert forall x :: x in s.bearers ==> DownlinkFAR(t, x) == DownlinkFAR(s, x);
    hide DownlinkFAR, Forwards;
  }

  lemma StepKeepsSound(ss: seq<Sess>, e: Event)
    requires Sound(ss) && Allowed(ss, e)
    ensures Sound(Step(ss, e))
  {
    hide Agree, OwnFARs, AfterContexts, Released;
    match e
    case Modify(cs) => ContextsKeepSound(ss, cs, RequestedEBIs(cs));
    case Release(orders, reach) => ReleaseKeepsSound(ss, orders, reach);
    case Added(i, ebi, b) => AddedAgrees(ss[i], ebi, b);
    case Lost(i) => LostAgrees(ss[i]);
  }

  lemma LostAgrees(s: Sess)
    requires OwnFARs(s)
    ensures var t := s.(bound := false, fars := map[]); OwnFARs(t) && Agree(t)
  {
    var t := s.(bound := false, fars := map[]);
    assert forall x :: x in s.bearers ==> DownlinkFAR(t, x) == DownlinkFAR(s, x);
    hide DownlinkFAR;
  }

  /**
   * Over every run of Modify Bearer with complete endpoints and Release Access Bearers, and
   * every pattern of PFCP failures, no downlink FAR forwards to an endpoint its bearer does
   * not hold.
   */
  lemma {:induction false} RunKeepsAgreement(start: seq<Sess>, es: seq<Event>)
    requires Sound(start) && Legal(start, es)
    ensures Sound(Run(start, es))
    decreases |es|
  {
    if es != [] {
      hide Sound, Step, Allowed;
      RunKeepsAgreement(start, es[..|es| - 1]);
      StepKeepsSound(Run(start, es[..|es| - 1]), es[|es| - 1]);
    }
  }

  // ---- The handlers -----------------------------------------------------------

  class Handler {
    var sessions: seq<Sess>

    constructor (sessions: seq<Sess>)
      ensures this.sessions == sessions
    {
      this.sessions := sessions;
    }

    /** Stores the endpoint first, and takes it back when the SGW-U does not follow. */
    method MoveBearer(i: nat, ebi: byte, f: FTEID, reach: bool) returns (ok: bool)
      requires i < |sessions| && ebi in sessions[i].bearers
      modifies this
      ensures sessions == old(sessions)[i := Moved(old(sessions)[i], ebi, f, reach)]
      ensures ok == Moves(old(sessions)[i], ebi, f, reach)
    {
      ghost var was := sessions[i];
      MovedFields(was, ebi, f, reach);
      hide Moved, Updated, DownlinkFAR;
      var s := sessions[i];
      var previous := s.bearers[ebi].enb;
      s := s.(bearers := s.bearers[ebi := s.bearers[ebi].(enb := f)]);
      sessions := sessions[i := s];
      assert DownlinkFAR(s, ebi) == DownlinkFAR(was, ebi) by { SameRule(was, ebi, f); }
      var far := DownlinkFAR(s, ebi);
      ok := far.Some? && reach && far.value in s.fars;
      if ok {
        var u := ForwardTo(far.value, f);
        sessions := sessions[i := s.(fars := s.fars[far.value := Updated(s.fars[far.value], u)])];
      } else {
        assert s.bearers[ebi := s.bearers[ebi].(enb := previous)] == was.bearers;
        sessions := sessions[i := s.(bearers := s.bearers[ebi := s.bearers[ebi].(enb := previous)])];
      }
    }

    method RestoreSiblingBearers(i: nat, order: seq<byte>, requested: set<byte>, f: FTEID, reach: set<byte>)
      requires i < |sessions|
      modifies this
      ensures sessions == old(sessions)[i := RestoreSiblings(old(sessions)[i], order, requested, f, reach)]
      ensures OwnFARs(old(sessions)[i]) ==> forall e :: e in old(sessions)[i].bearers ==>
                if ToRestore(old(sessions)[i], e, order, requested, f, reach) then At(old(sessions)[i], sessions[i], e, f)
                else SameBearer(old(sessions)[i], sessions[i], e)
    {
      hide Moved, OwnFARs, DownlinkFAR, At, SameBearer, ToRestore;
      ghost var was := sessions[i];
      RestoredAll(was, order, requested, f, reach);
      if f.ipv4.None? || f.teid == 0 {
        return;
      }
      for k := 0 to |order|
        invariant |sessions| == |old(sessions)|
        invariant sessions == old(sessions)[i := Follow(was, order[..k], requested, f, reach)]
      {
        assert order[..k + 1][..k] == order[..k];
        var e, s := order[k], sessions[i];
        if e !in s.bearers || e == s.defaultEBI || e in requested || s.bearers[e].deleting {
          continue;
        }
        var _ := MoveBearer(i, e, f, e in reach);
      }
      assert order[..|order|] == order;
    }

    method FindOwner(ebi: byte) returns (i: Option<nat>)
      ensures i == OwnerOf(sessions, ebi)
    {
      OwnerIsLast(sessions, ebi);
      for k := |sessions| downto 0
        invariant forall j :: k <= j < |sessions| ==> ebi !in sessions[j].bearers
      {
        if ebi in sessions[k].bearers {
          return Some(k);
        }
      }
      return None;
    }

    method ModifyContext(c: Context, requested: set<byte>) returns (cause: byte)
      modifies this
      ensures sessions == AfterContext(old(sessions), c, requested)
      ensures cause == ContextCause(old(sessions), c)
    {
      hide Moved, RestoreSiblings, Moves;
      OwnerIsLast(sessions, c.ebi);
      var owner := FindOwner(c.ebi);
      if c.enb == None {
        return MANDATORY_IE_MISSING;
      }
      if owner == None {
        return CONTEXT_NOT_FOUND;
      }
      var i, f := owner.value, c.enb.value;
      if !sessions[i].bound {
        return SYSTEM_FAILURE;
      }
      var ok := MoveBearer(i, c.ebi, f, c.reach);
      if !ok {
        return SYSTEM_FAILURE;
      }
      assert sessions[i].defaultEBI == old(sessions)[i].defaultEBI by {
        MovedKeepsRules(old(sessions)[i], c.ebi, f, c.reach);
      }
      if c.ebi == sessions[i].defaultEBI {
        RestoreSiblingBearers(i, c.order, requested, f, c.siblingReach);
      }
      return ACCEPTED;
    }

    method ModifyBearerRequest(cs: seq<Context>) returns (causes: seq<byte>, cause: byte)
      modifies this
      ensures sessions == AfterContexts(old(sessions), cs, RequestedEBIs(cs))
      ensures causes == Causes(old(sessions), cs, RequestedEBIs(cs))
      ensures cause == ACCEPTED <==> causes == [] || ACCEPTED in causes
      ensures cause != ACCEPTED ==> |causes| > 0 && cause == causes[0]
    {
      hide AfterContext, ContextCause;
      var requested := {};
      for i := 0 to |cs|
        invariant requested == set c | c in cs[..i] :: c.ebi
      {
        assert cs[..i + 1] == cs[..i] + [cs[i]];
        requested := requested + {cs[i].ebi};
      }
      assert cs[..|cs|] == cs;
      causes := [];
      for i := 0 to |cs|
        invariant sessions == AfterContexts(old(sessions), cs[..i], requested)
        invariant causes == Causes(old(sessions), cs[..i], requested) && |causes| == i
      {
        assert cs[..i + 1][..i] == cs[..i];
        var one := ModifyContext(cs[i], requested);
        causes := causes + [one];
      }
      cause := ACCEPTED;
      if |causes| > 0 {
        var anyAccepted := false;
        for i := 0 to |causes|
          invariant anyAccepted <==> ACCEPTED in causes[..i]
        {
          assert causes[..i + 1] == causes[..i] + [causes[i]];
          anyAccepted := anyAccepted || causes[i] == ACCEPTED;
        }
        assert causes[..|causes|] == causes;
        if !anyAccepted {
          cause := causes[0];
        }
      }
    }

    method FARUpdates(s: Sess, order: seq<byte>) returns (us: Option<seq<Update>>)
      requires Enumerates(order, s.bearers)
      ensures AllHaveRules(s) ==> us == Some(DropUpdates(s, order))
      ensures !AllHaveRules(s) ==> us == None
    {
      hide DownlinkFAR;
      var updates := [];
      for k := 0 to |order|
        invariant forall j :: 0 <= j < k ==> DownlinkFAR(s, order[j]).Some?
        invariant forall e :: e in order[..k] ==> e in s.bearers && DownlinkFAR(s, e).Some?
        invariant updates == DropUpdates(s, order[..k])
      {
        assert order[..k + 1] == order[..k] + [order[k]] && order[..k + 1][..k] == order[..k];
        var far := DownlinkFAR(s, order[k]);
        if far == None {
          return None;
        }
        updates := updates + [Update(far.value, DROP, ACCESS, None)];
      }
      assert order[..|order|] == order;
      return Some(updates);
    }

    /** The SGW-U part of a release for one session; an unbound one has nothing to drop. */
    method DropSession(i: nat, order: seq<byte>, reach: bool) returns (ok: bool)
      requires i < |sessions| && Enumerates(order, sessions[i].bearers)
      modifies this
      ensures sessions == old(sessions)[i := Dropped(old(sessions)[i], order, reach)]
      ensures ok == DropsOk(old(sessions)[i], order, reach)
    {
      hide DropUpdates, ApplyAll, Applicable, AllHaveRules, Enumerates;
      var s := sessions[i];
      if !s.bound {
        return true;
      }
      var us := FARUpdates(s, order);
      if us == None {
        return false;
      }
      if us.value == [] {
        NoUpdates(s, order);
        return true;
      }
      NoUpdates(s, order);
      ok := reach && Applicable(s.fars, us.value);
      if ok {
        sessions := sessions[i := s.(fars := ApplyAll(s.fars, us.value))];
      }
    }

    method ReleaseAccessBearersRequest(orders: seq<seq<byte>>, reach: seq<bool>) returns (accepted: bool)
      requires |sessions| == |orders| == |reach|
      requires forall i :: 0 <= i < |sessions| ==> Enumerates(orders[i], sessions[i].bearers)
      modifies this
      ensures sessions == Released(old(sessions), orders, reach)
      ensures accepted <==> FirstFailure(old(sessions), orders, reach) == |old(sessions)|
    {
      hide Dropped, DropsOk, ClearENBs, Enumerates;
      ghost var ss := sessions;
      for i := 0 to |sessions|
        invariant |sessions| == |ss|
        invariant forall j :: 0 <= j < i ==> DropsOk(ss[j], orders[j], reach[j])
        invariant forall j :: 0 <= j < |ss| ==> sessions[j] == if j < i then Dropped(ss[j], orders[j], reach[j]) else ss[j]
      {
        var dropped := DropSession(i, orders[i], reach[i]);
        if !dropped {
          FailureIs(ss, orders, reach, i);
          assert Dropped(ss[i], orders[i], reach[i]) == ss[i] by { FailedDrop(ss[i], orders[i], reach[i]); }
          return false;
        }
      }
      FailureIs(ss, orders, reach, |ss|);
      for i := 0 to |sessions|
        invariant |sessions| == |ss|
        invariant forall j :: 0 <= j < |ss| ==>
                    sessions[j] == if j < i then ClearENBs(Dropped(ss[j], orders[j], reach[j])) else Dropped(ss[j], orders[j], reach[j])
      {
        sessions := sessions[i := ClearENBs(sessions[i])];
      }
      return true;
    }
  }

  lemma NoUpdates(s: Sess, order: seq<byte>)
    requires Enumerates(order, s.bearers) && AllHaveRules(s)
    ensures DropUpdates(s, order) == [] <==> order == []
  {
    DropUpdatesAre(s, order);
  }

  lemma SameRule(s: Sess, ebi: byte, f: FTEID)
    requires ebi in s.bearers
    ensures DownlinkFAR(s.(bearers := s.bearers[ebi := s.bearers[ebi].(enb := f)]), ebi) == DownlinkFAR(s, ebi)
  {
  }

  lemma FailedDrop(s: Sess, order: seq<byte>, reach: bool)
    requires Enumerates(order, s.bearers) && !DropsOk(s, order, reach)
    ensures Dropped(s, order, reach) == s
  {
  }

  lemma FailureIs(ss: seq<Sess>, orders: seq<seq<byte>>, reach: seq<bool>, k: nat)
    requires |ss| == |orders| == |reach| && forall i :: 0 <= i < |ss| ==> Enumerates(orders[i], ss[i].bearers)
    requires k <= |ss| && (forall i :: 0 <= i < k ==> DropsOk(ss[i], orders[i], reach[i]))
    requires k < |ss| ==> !DropsOk(ss[k], orders[k], reach[k])
    ensures FirstFailure(ss, orders, reach) == k
  {
    hide DropsOk;
  }
}
