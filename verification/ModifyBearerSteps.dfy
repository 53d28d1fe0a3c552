/**
 * Modify Bearer as it runs (internal/sgwc/s11/handler.go:1163-1226, 1383-1403): the handler
 * stores the new endpoint, sends a PFCP modification without holding a lock, and keeps or takes
 * back the endpoint when the answer comes. Requests for one session interleave at these points.
 */
module ModifyBearerSteps {
  import opened Wrappers
  import opened Bytes
  import opened Addresses
  import opened Sessions
  import opened ModifyBearer
  import C = Collision

  /** One bearer being moved, as its handler sees it between storing and the PFCP answer. */
  datatype Move = Move(ebi: byte, to: FTEID, previous: FTEID, applied: bool)

  /** A session with its moves in progress; releasing stands between a release's drop and its clearing of endpoints. */
  datatype State = State(s: Sess, open: map<nat, Move>, releasing: bool)

  datatype Event =
    | StoreEndpoint(id: nat, ebi: byte, to: FTEID)
    | Apply(id: nat)
    | Keep(id: nat)
    | TakeBack(id: nat)
    | DropAll(order: seq<byte>)
    | ClearAll
    | GiveUpRelease
    | LoseSGWU

  // ---- Steps ------------------------------------------------------------------

  function FAROf(s: Sess, ebi: byte): Option<u32> {
    if ebi in s.bearers then DownlinkFAR(s, ebi) else None
  }

  predicate OrderOk(s: Sess, order: seq<byte>) {
    Enumerates(order, s.bearers) && AllHaveRules(s)
  }

  predicate Enabled(m: State, e: Event) {
    match e
    case StoreEndpoint(id, ebi, _) => id !in m.open && m.s.bound && FAROf(m.s, ebi).Some?
    case Apply(id) =>
      && id in m.open && !m.open[id].applied && m.s.bound
      && FAROf(m.s, m.open[id].ebi).Some? && FAROf(m.s, m.open[id].ebi).value in m.s.fars
    case Keep(id) => id in m.open && m.open[id].applied
    case TakeBack(id) => id in m.open && !m.open[id].applied && m.open[id].ebi in m.s.bearers
    case DropAll(order) => m.s.bound && OrderOk(m.s, order) && Applicable(m.s.fars, DropUpdates(m.s, order))
    case ClearAll => m.releasing
    case GiveUpRelease => m.releasing
    case LoseSGWU => true
  }

  function SetENB(s: Sess, ebi: byte, f: FTEID): Sess
    requires ebi in s.bearers
  {
    s.(bearers := s.bearers[ebi := s.bearers[ebi].(enb := f)])
  }

  function Step(m: State, e: Event): State
    requires Enabled(m, e)
  {
    match e
    case StoreEndpoint(id, ebi, to) =>
      m.(s := SetENB(m.s, ebi, to), open := m.open[id := Move(ebi, to, m.s.bearers[ebi].enb, false)])
    case Apply(id) =>
      var mv, far := m.open[id], FAROf(m.s, m.open[id].ebi).value;
      m.(s := m.s.(fars := m.s.fars[far := Updated(m.s.fars[far], ForwardTo(far, mv.to))]),
         open := m.open[id := mv.(applied := true)])
    case Keep(id) => m.(open := m.open - {id})
    case TakeBack(id) => m.(s := SetENB(m.s, m.open[id].ebi, m.open[id].previous), open := m.open - {id})
    case DropAll(order) => m.(s := m.s.(fars := ApplyAll(m.s.fars, DropUpdates(m.s, order))), releasing := true)
    case ClearAll => m.(s := ClearENBs(m.s), releasing := false)
    case GiveUpRelease => m.(releasing := false)
    case LoseSGWU => m.(s := m.s.(bound := false, fars := map[]))
  }

  ghost predicate Legal(start: Sess, es: seq<Event>)
    decreases |es|, 0
  {
    es == [] || (Legal(start, es[..|es| - 1]) && Enabled(Run(start, es[..|es| - 1]), es[|es| - 1]))
  }

  ghost function Run(start: Sess, es: seq<Event>): State
    requires Legal(start, es)
    decreases |es|, 1
  {
    if es == [] then State(start, map[], false) else Step(Run(start, es[..|es| - 1]), es[|es| - 1])
  }

  /**
   * The discipline under which interleaving is harmless: endpoints are complete, no bearer is
   * moved twice at once, and a release has the session to itself.
   */
  ghost predicate Exclusive(m: State, e: Event) {
    match e
    case StoreEndpoint(_, ebi, to) => WellFormed(to) && !m.releasing && forall id :: id in m.open ==> m.open[id].ebi != ebi
    case DropAll(_) => m.open == map[]
    case _ => true
  }

  ghost predicate Disciplined(start: Sess, es: seq<Event>)
    requires Legal(start, es)
    decreases |es|
  {
    es == [] ||
    (Disciplined(start, es[..|es| - 1]) && Exclusive(Run(start, es[..|es| - 1]), es[|es| - 1]))
  }

  // ---- Agreement between the steps --------------------------------------------

  /** If this bearer's FAR forwards, it forwards to f. */
  predicate ForwardsOnlyTo(s: Sess, ebi: byte, f: FTEID) {
    s.bound && FAROf(s, ebi).Some? && FAROf(s, ebi).value in s.fars && Forwards(s.fars[FAROf(s, ebi).value]) ==>
      s.fars[FAROf(s, ebi).value].outer == f
  }

  ghost predicate Untouched(m: State, ebi: byte) {
    forall id :: id in m.open ==> m.open[id].ebi != ebi
  }

  /** A bearer being moved stores the new endpoint; its FAR is at the old one until the update is applied. */
  ghost predicate Consistent(m: State) {
    && OwnFARs(m.s)
    && (forall id :: id in m.open ==>
          && m.open[id].ebi in m.s.bearers && WellFormed(m.open[id].to)
          && m.s.bearers[m.open[id].ebi].enb == m.open[id].to
          && ForwardsOnlyTo(m.s, m.open[id].ebi, if m.open[id].applied then m.open[id].to else m.open[id].previous))
    && (forall i, j :: i in m.open && j in m.open && m.open[i].ebi == m.open[j].ebi ==> i == j)
    && (forall e :: e in m.s.bearers && Untouched(m, e) ==> ForwardsOnlyTo(m.s, e, m.s.bearers[e].enb))
    && (m.releasing ==> m.open == map[] && forall e, f :: e in m.s.bearers ==> ForwardsOnlyTo(m.s, e, f))
  }

  /** Only the endpoints changed: FARs and rule identifiers are as before. */
  predicate SameRules(s: Sess, t: Sess) {
    && t.bearers.Keys == s.bearers.Keys && t.bound == s.bound && t.fars == s.fars
    && forall e :: e in s.bearers ==> FAROf(t, e) == FAROf(s, e)
  }

  lemma SetENBKeepsRules(s: Sess, ebi: byte, f: FTEID)
    requires ebi in s.bearers
    ensures SameRules(s, SetENB(s, ebi, f)) && (OwnFARs(s) ==> OwnFARs(SetENB(s, ebi, f)))
    ensures forall e :: e in s.bearers && e != ebi ==> SetENB(s, ebi, f).bearers[e] == s.bearers[e]
    ensures forall e, g :: ForwardsOnlyTo(SetENB(s, ebi, f), e, g) <==> ForwardsOnlyTo(s, e, g)
  {
    var t := SetENB(s, ebi, f);
    assert forall e :: e in s.bearers ==> DownlinkFAR(t, e) == DownlinkFAR(s, e);
    assert forall e :: FAROf(t, e) == FAROf(s, e);
    hide DownlinkFAR, Forwards;
  }

  lemma StoreKeepsConsistent(m: State, e: Event)
    requires Consistent(m) && e.StoreEndpoint? && Enabled(m, e) && Exclusive(m, e)
    ensures Consistent(Step(m, e))
  {
    hide ForwardsOnlyTo, OwnFARs, WellFormed;
    SetENBKeepsRules(m.s, e.ebi, e.to);
    var n := Step(m, e);
    assert Untouched(m, e.ebi);
    forall x | x in n.s.bearers && Untouched(n, x) ensures ForwardsOnlyTo(n.s, x, n.s.bearers[x].enb) {
      assert n.open[e.id].ebi == e.ebi;
      assert Untouched(m, x) by {
        forall id | id in m.open ensures m.open[id].ebi != x {
          assert n.open[id] == m.open[id];
        }
      }
    }
  }

  lemma TakeBackKeepsConsistent(m: State, id: nat)
    requires Consistent(m) && Enabled(m, TakeBack(id))
    ensures Consistent(Step(m, TakeBack(id)))
  {
    hide ForwardsOnlyTo, OwnFARs, WellFormed;
    SetENBKeepsRules(m.s, m.open[id].ebi, m.open[id].previous);
    ClosingKeepsOthers(m, id, Step(m, TakeBack(id)));
  }

  /** After a move is closed, a bearer no move touches was untouched before, or was the moved one. */
  lemma ClosingKeepsOthers(m: State, id: nat, n: State)
    requires id in m.open && n.open == m.open - {id}
    ensures forall e :: Untouched(n, e) ==> Untouched(m, e) || e == m.open[id].ebi
  {
    forall e | Untouched(n, e) && e != m.open[id].ebi ensures Untouched(m, e) {
      forall i | i in m.open ensures m.open[i].ebi != e {
        if i != id {
          assert i in n.open;
        }
      }
    }
  }

  lemma KeepKeepsConsistent(m: State, id: nat)
    requires Consistent(m) && Enabled(m, Keep(id))
    ensures Consistent(Step(m, Keep(id)))
  {
    hide ForwardsOnlyTo, OwnFARs, WellFormed;
    ClosingKeepsOthers(m, id, Step(m, Keep(id)));
  }

  /** Applying an update moves one bearer's FAR to the new endpoint and no other's. */
  lemma ApplyMovesOne(s: Sess, ebi: byte, f: FTEID)
    requires OwnFARs(s) && s.bound && FAROf(s, ebi).Some? && FAROf(s, ebi).value in s.fars && WellFormed(f)
    ensures var far := FAROf(s, ebi).value;
            var t := s.(fars := s.fars[far := Updated(s.fars[far], ForwardTo(far, f))]);
            && OwnFARs(t) && ForwardsOnlyTo(t, ebi, f)
            && forall e, g :: e in s.bearers && e != ebi ==> (ForwardsOnlyTo(t, e, g) <==> ForwardsOnlyTo(s, e, g))
  {
    var far := FAROf(s, ebi).value;
    var t := s.(fars := s.fars[far := Updated(s.fars[far], ForwardTo(far, f))]);
    assert forall e :: e in s.bearers ==> DownlinkFAR(t, e) == DownlinkFAR(s, e);
    assert forall e :: FAROf(t, e) == FAROf(s, e);
    forall e | e in s.bearers && e != ebi ensures FAROf(s, e) != Some(far) {
      DistinctFARs(s, ebi, e);
    }
    hide DownlinkFAR, OwnFARs, HasFORW;
  }

  lemma ApplyKeepsConsistent(m: State, id: nat)
    requires Consistent(m) && Enabled(m, Apply(id))
    ensures Consistent(Step(m, Apply(id)))
  {
    hide ForwardsOnlyTo, OwnFARs, WellFormed, Updated;
    ApplyMovesOne(m.s, m.open[id].ebi, m.open[id].to);
    var n := Step(m, Apply(id));
    forall e | Untouched(n, e) ensures Untouched(m, e) && e != m.open[id].ebi {
      forall i | i in m.open ensures m.open[i].ebi != e {
        assert i in n.open && n.open[i].ebi == m.open[i].ebi;
      }
    }
  }

  lemma DropKeepsConsistent(m: State, order: seq<byte>)
    requires Consistent(m) && Enabled(m, DropAll(order)) && Exclusive(m, DropAll(order))
    ensures Consistent(Step(m, DropAll(order)))
  {
    var us, s, n := DropUpdates(m.s, order), m.s, Step(m, DropAll(order));
    DropUpdatesAre(s, order);
    DropsStopForwarding(s.fars, us);
    assert forall e :: e in s.bearers ==> DownlinkFAR(n.s, e) == DownlinkFAR(s, e);
    hide DownlinkFAR, ApplyAll, DropUpdates, HasFORW;
    forall e, f | e in n.s.bearers ensures ForwardsOnlyTo(n.s, e, f) {
      var i :| 0 <= i < |order| && order[i] == e;
      assert us[i].farID == DownlinkFAR(s, e).value;
    }
  }

  lemma ClearKeepsConsistent(m: State)
    requires Consistent(m) && m.releasing
    ensures Consistent(Step(m, ClearAll))
  {
    var n := Step(m, ClearAll);
    assert forall e :: e in m.s.bearers ==> DownlinkFAR(n.s, e) == DownlinkFAR(m.s, e);
    assert forall e :: FAROf(n.s, e) == FAROf(m.s, e);
    hide DownlinkFAR, Forwards;
    forall e | e in n.s.bearers ensures ForwardsOnlyTo(n.s, e, n.s.bearers[e].enb) {
      assert ForwardsOnlyTo(m.s, e, n.s.bearers[e].enb);
    }
  }

  lemma LoseKeepsConsistent(m: State)
    requires Consistent(m)
    ensures Consistent(Step(m, LoseSGWU))
  {
    var n := Step(m, LoseSGWU);
    assert forall e :: e in m.s.bearers ==> DownlinkFAR(n.s, e) == DownlinkFAR(m.s, e);
    hide DownlinkFAR;
  }

  lemma StepKeepsConsistent(m: State, e: Event)
    requires Consistent(m) && Enabled(m, e) && Exclusive(m, e)
    ensures Consistent(Step(m, e))
  {
    match e
    case StoreEndpoint(_, _, _) => StoreKeepsConsistent(m, e);
    case Apply(id) => ApplyKeepsConsistent(m, id);
    case Keep(id) => KeepKeepsConsistent(m, id);
    case TakeBack(id) => TakeBackKeepsConsistent(m, id);
    case DropAll(order) => DropKeepsConsistent(m, order);
    case ClearAll => ClearKeepsConsistent(m);
    case GiveUpRelease => hide ForwardsOnlyTo, OwnFARs;
    case LoseSGWU => LoseKeepsConsistent(m);
  }

  lemma AgreeIsConsistent(s: Sess)
    requires OwnFARs(s) && Agree(s)
    ensures Consistent(State(s, map[], false))
  {
  }

  lemma {:induction false} DisciplinedIsConsistent(start: Sess, es: seq<Event>)
    requires OwnFARs(start) && Agree(start) && Legal(start, es) && Disciplined(start, es)
    ensures Consistent(Run(start, es))
    decreases |es|
  {
    if es == [] {
      AgreeIsConsistent(start);
    } else {
      hide Consistent, Step, Enabled, Exclusive;
      DisciplinedIsConsistent(start, es[..|es| - 1]);
      StepKeepsConsistent(Run(start, es[..|es| - 1]), es[|es| - 1]);
    }
  }

  /**
   * However requests interleave, as long as no bearer is moved twice at once: at every moment
   * each bearer with no move in progress forwards only to the endpoint it stores, and when
   * nothing is in progress the whole session agrees.
   */
  lemma InterleavedRunAgrees(start: Sess, es: seq<Event>)
    requires OwnFARs(start) && Agree(start) && Legal(start, es) && Disciplined(start, es)
    ensures var m := Run(start, es);
            && (forall e :: e in m.s.bearers && Untouched(m, e) ==> ForwardsOnlyTo(m.s, e, m.s.bearers[e].enb))
            && (m.open == map[] ==> Agree(m.s))
  {
    hide Run, Legal, Disciplined, OwnFARs;
    DisciplinedIsConsistent(start, es);
    var m := Run(start, es);
    if m.open == map[] {
      assert forall e :: e in m.s.bearers ==> ForwardsOnlyTo(m.s, e, m.s.bearers[e].enb);
      assert forall e :: e in m.s.bearers ==> FAROf(m.s, e) == DownlinkFAR(m.s, e);
      hide Forwards, DownlinkFAR;
    }
  }

  // ---- Steps that nothing comes between ---------------------------------------

  /** A move whose steps nothing comes between is the move in one piece: done when applied, and as if never begun when taken back. */
  lemma StepsMakeAMove(m: State, id: nat, ebi: byte, to: FTEID)
    requires Enabled(m, StoreEndpoint(id, ebi, to))
    ensures var stored := Step(m, StoreEndpoint(id, ebi, to));
            && Enabled(stored, TakeBack(id)) && Step(stored, TakeBack(id)) == m
            && (FAROf(m.s, ebi).value in m.s.fars ==>
                  && Enabled(stored, Apply(id)) && Enabled(Step(stored, Apply(id)), Keep(id))
                  && Step(Step(stored, Apply(id)), Keep(id)) == m.(s := Moved(m.s, ebi, to, true)))
  {
    hide Updated, OwnFARs;
    SetENBKeepsRules(m.s, ebi, to);
    MovedFields(m.s, ebi, to, true);
    hide Moved, DownlinkFAR;
    var stored := Step(m, StoreEndpoint(id, ebi, to));
    assert stored.open - {id} == m.open;
    assert m.s.bearers[ebi := m.s.bearers[ebi]] == m.s.bearers;
    assert stored.s.bearers[ebi].(enb := m.s.bearers[ebi].enb) == m.s.bearers[ebi];
    assert Step(stored, TakeBack(id)).s.bearers == m.s.bearers;
    if FAROf(m.s, ebi).value in m.s.fars {
      assert Step(stored, Apply(id)).open - {id} == m.open;
    }
  }

  /** And so with a release: the drop and the clearing together, or the drop alone when a later session fails. */
  lemma StepsMakeARelease(m: State, order: seq<byte>)
    requires Enabled(m, DropAll(order)) && !m.releasing
    ensures var dropped := Step(m, DropAll(order));
            && Enabled(dropped, ClearAll) && Step(dropped, ClearAll) == m.(s := ClearENBs(Dropped(m.s, order, true)))
            && Enabled(dropped, GiveUpRelease) && Step(dropped, GiveUpRelease) == m.(s := Dropped(m.s, order, true))
  {
    hide Updated, DownlinkFAR;
  }

  // ---- Two moves of one bearer ------------------------------------------------

  lemma RunStep(start: Sess, es: seq<Event>, e: Event)
    requires Legal(start, es) && Enabled(Run(start, es), e)
    ensures Legal(start, es + [e]) && Run(start, es + [e]) == Step(Run(start, es), e)
  {
    assert (es + [e])[..|es|] == es;
  }

  /** The first request's update is delayed past the second one's, and both are accepted. */
  function Overtaken(ebi: byte, f1: FTEID, f2: FTEID): seq<Event> {
    [StoreEndpoint(1, ebi, f1)] + [StoreEndpoint(2, ebi, f2)] + [Apply(2)] + [Keep(2)] + [Apply(1)] + [Keep(1)]
  }

  /**
   * The discipline cannot be dropped: two overlapping moves of one bearer to different
   * endpoints can both be accepted and leave the FAR forwarding where the bearer is not.
   */
  lemma OverlappingMovesDisagree(s: Sess, ebi: byte, f1: FTEID, f2: FTEID)
    requires s.bound && FAROf(s, ebi).Some? && FAROf(s, ebi).value in s.fars
    requires WellFormed(f1) && WellFormed(f2) && f1 != f2
    ensures var es, far := Overtaken(ebi, f1, f2), FAROf(s, ebi).value;
            && Legal(s, es)
            && var m := Run(s, es);
               && m.open == map[] && ebi in m.s.bearers && m.s.bearers[ebi].enb == f2
               && far in m.s.fars && Forwards(m.s.fars[far]) && m.s.fars[far].outer == f1
               && !Agree(m.s)
  {
    var far := FAROf(s, ebi).value;
    var s1 := SetENB(s, ebi, f1);
    var s2 := SetENB(s1, ebi, f2);
    RulesStay(s, ebi, f1);
    RulesStay(s1, ebi, f2);
    var u1, u2 := ForwardTo(far, f1), ForwardTo(far, f2);
    var s3 := s2.(fars := s2.fars[far := Updated(s2.fars[far], u2)]);
    var s4 := s3.(fars := s3.fars[far := Updated(s3.fars[far], u1)]);
    FARsDoNotMatter(s2, ebi, s3.fars);
    FARsDoNotMatter(s2, ebi, s4.fars);
    EndState(s4, ebi, far, f1, f2);
    hide DownlinkFAR, Updated, Forwards, WellFormed, Legal, Run, Agree, FAROf;
    EmptyRun(s);
    var e1, e2 := StoreEndpoint(1, ebi, f1), StoreEndpoint(2, ebi, f2);
    var mv1, mv2 := Move(ebi, f1, s.bearers[ebi].enb, false), Move(ebi, f2, f1, false);
    RunStep(s, [], e1);
    var es := [e1];
    assert [] + [e1] == es;
    assert Run(s, es) == State(s1, map[1 := mv1], false);
    RunStep(s, es, e2);
    es := es + [e2];
    assert Run(s, es) == State(s2, map[1 := mv1, 2 := mv2], false);
    RunStep(s, es, Apply(2));
    es := es + [Apply(2)];
    assert Run(s, es) == State(s3, map[1 := mv1, 2 := mv2.(applied := true)], false);
    RunStep(s, es, Keep(2));
    es := es + [Keep(2)];
    assert Run(s, es) == State(s3, map[1 := mv1], false);
    RunStep(s, es, Apply(1));
    es := es + [Apply(1)];
    assert Run(s, es) == State(s4, map[1 := mv1.(applied := true)], false);
    RunStep(s, es, Keep(1));
    assert Run(s, es + [Keep(1)]) == State(s4, map[], false);
  }

  lemma EmptyRun(s: Sess)
    ensures Legal(s, []) && Run(s, []) == State(s, map[], false)
  {
  }

  lemma RulesStay(s: Sess, ebi: byte, f: FTEID)
    requires ebi in s.bearers
    ensures FAROf(SetENB(s, ebi, f), ebi) == FAROf(s, ebi)
  {
  }

  lemma FARsDoNotMatter(s: Sess, ebi: byte, fars: map<u32, FAR>)
    ensures FAROf(s.(fars := fars), ebi) == FAROf(s, ebi)
  {
  }

  lemma EndState(s: Sess, ebi: byte, far: u32, f1: FTEID, f2: FTEID)
    requires s.bound && FAROf(s, ebi) == Some(far) && far in s.fars && WellFormed(f1) && f1 != f2
    requires ebi in s.bearers && s.bearers[ebi].enb == f2
    requires s.fars[far].action == FORW && s.fars[far].outer == f1
    ensures Forwards(s.fars[far]) && !Agree(s)
  {
  }

  /**
   * The procedure tracker does not enforce the discipline: a request that moves a default
   * bearer also moves siblings it does not name, and one that names a sibling is let in.
   */
  lemma TrackerAdmitsSiblingMove(first: C.Request, second: C.Request)
    requires first.procedure == C.ModifyBearer && second.procedure == C.ModifyBearer
    requires first.ebis != [] && second.ebis != [] && !C.OverlapsEBI(first.ebis, second.ebis)
    ensures C.Allowed(C.Strict, first, second)
  {
  }

  /** It does give a release the session to itself: neither a move nor another release is let in beside it. */
  lemma TrackerIsolatesRelease(first: C.Request, second: C.Request)
    requires first.procedure == C.ReleaseAccessBearers && second.procedure in {C.ModifyBearer, C.ReleaseAccessBearers}
    ensures !C.Allowed(C.Permissive, first, second) && !C.Allowed(C.Permissive, second, first)
  {
  }
}
