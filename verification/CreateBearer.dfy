/**
 * Completing a Create Bearer procedure (internal/sgwc/s11/bearer_handler.go): PFCP rules were
 * installed before the MME was asked; each context of its validated response now commits one
 * provisional rule set to a stored bearer or rolls it back.
 */
module CreateBearer {
  import opened Wrappers
  import opened Bytes
  import opened Addresses
  import opened Sessions

  const ACCEPTED: byte := 16
  const PARTIAL: byte := 17
  const SYSTEM_FAILURE: byte := 72

  /** One provisional rule set: its identifiers, the endpoints the SGW-U chose, and the PGW's parameters. */
  datatype Provision = Provision(ids: RuleIds, sgwS1U: FTEID, sgwS5U: FTEID, pgwS5U: FTEID, qos: seq<byte>, tft: seq<byte>)

  /**
   * One bearer context of the MME's response: echoed is the TEID of the SGW endpoint it repeats,
   * if any. The session may lose its SGW-U at any moment: bound says whether it has one when the
   * context is examined, removable when the context's rule set would be removed.
   */
  datatype Context = Context(ebi: byte, cause: byte, enb: FTEID, echoed: Option<u32>, bound: bool, removable: bool)

  /** Here removable speaks of the moment at which a rejecting message removes all rule sets. */
  datatype Procedure = Procedure(
    provs: seq<Provision>, contexts: seq<Context>, cause: byte, removable: bool, bearers: map<byte, Bearer>, at: int)

  /** The response was validated against the request, and rule identifiers are new and distinct. */
  ghost predicate Valid(c: Procedure) {
    && |c.contexts| == |c.provs|
    && (forall i, j :: 0 <= i < j < |c.provs| ==> c.provs[i].ids != c.provs[j].ids)
    && (forall e, i :: e in c.bearers && 0 <= i < |c.provs| ==> !Owns(c.bearers[e], c.provs[i].ids))
  }

  predicate Rejects(c: Procedure) {
    c.cause != ACCEPTED && c.cause != PARTIAL
  }

  // ---- One context ------------------------------------------------------------

  function FirstWith(provs: seq<Provision>, teid: u32, from: nat): (r: nat)
    requires from <= |provs|
    ensures from <= r <= |provs|
    decreases |provs| - from
  {
    if from == |provs| || provs[from].sgwS1U.teid == teid then from else FirstWith(provs, teid, from + 1)
  }

  /** The rule set a context speaks of: the one whose endpoint it echoes, else the one at its position. */
  function MatchOf(c: Procedure, k: nat): (i: nat)
    requires |c.contexts| == |c.provs| && k < |c.contexts|
    ensures i < |c.provs|
  {
    match c.contexts[k].echoed
    case None => k
    case Some(teid) => var i := FirstWith(c.provs, teid, 0); if i < |c.provs| then i else k
  }

  /**
   * Context k speaks of rule set i: it echoes the TEID of that set's S1-U endpoint, which no
   * set before has, or it echoes nothing, or a TEID no set has, and i is its own position.
   */
  predicate SpeaksOf(c: Procedure, k: nat, i: nat)
    requires |c.contexts| == |c.provs| && k < |c.contexts| && i < |c.provs|
  {
    match c.contexts[k].echoed
    case None => i == k
    case Some(teid) =>
      if c.provs[i].sgwS1U.teid == teid then forall j :: 0 <= j < i ==> c.provs[j].sgwS1U.teid != teid
      else i == k && forall j :: 0 <= j < |c.provs| ==> c.provs[j].sgwS1U.teid != teid
  }

  lemma {:induction false} FirstWithIsFirst(provs: seq<Provision>, teid: u32, from: nat)
    requires from <= |provs|
    ensures forall j :: from <= j < FirstWith(provs, teid, from) ==> provs[j].sgwS1U.teid != teid
    ensures FirstWith(provs, teid, from) < |provs| ==> provs[FirstWith(provs, teid, from)].sgwS1U.teid == teid
    decreases |provs| - from
  {
    if from < |provs| && provs[from].sgwS1U.teid != teid {
      FirstWithIsFirst(provs, teid, from + 1);
    }
  }

  /** The rule set looked up for a context is the one it speaks of. */
  lemma MatchIsSpoken(c: Procedure, k: nat)
    requires |c.contexts| == |c.provs| && k < |c.contexts|
    ensures forall i: nat :: i < |c.provs| ==> (SpeaksOf(c, k, i) <==> i == MatchOf(c, k))
  {
    if c.contexts[k].echoed.Some? {
      FirstWithIsFirst(c.provs, c.contexts[k].echoed.value, 0);
    }
  }

  predicate Acceptable(c: Procedure, k: nat)
    requires k < |c.contexts|
  {
    c.contexts[k].cause == ACCEPTED && c.contexts[k].enb.teid != 0 && c.contexts[k].bound
  }

  function NewBearer(p: Provision, ctx: Context, at: int): Bearer {
    var v := p.qos;
    var arp := if |v| >= 2 then ARP(v[0] / 4 % 16, v[0] / 64 % 2 == 1, v[0] % 2 == 1) else ARP(0, false, false);
    var b := Bearer(
      ctx.ebi, if |v| >= 2 then v[1] else 0, arp, ctx.enb, p.sgwS1U, p.pgwS5U, p.sgwS5U, 0, 0, 0, 0,
      Some(p.tft), "active", p.ids.pdrUL, p.ids.pdrDL, p.ids.farUL, p.ids.farDL, 0, 0, "", 0, false);
    Touched(b, "set_bearer", at)
  }

  predicate Owns(b: Bearer, ids: RuleIds) {
    b.pdrUL == ids.pdrUL && b.pdrDL == ids.pdrDL && b.farUL == ids.farUL && b.farDL == ids.farDL
  }

  datatype Outcome = Outcome(bearers: map<byte, Bearer>, rolledBack: set<RuleIds>, removals: seq<RuleIds>, causes: seq<byte>)

  /**
   * A rule set is marked rolled back once; later attempts do nothing. Its removal is asked of
   * the SGW-U only when the session is bound to one at that moment.
   */
  function RollBack(o: Outcome, ids: RuleIds, bound: bool): Outcome {
    if ids in o.rolledBack then o
    else o.(rolledBack := o.rolledBack + {ids}, removals := o.removals + if bound then [ids] else [])
  }

  /** Whether a context commits its rule set, given whether the SGW-U accepts the endpoint update. */
  predicate Commits(c: Procedure, oks: seq<bool>, k: nat)
    requires k < |c.contexts| == |oks|
  {
    Acceptable(c, k) && oks[k]
  }

  function FinalCause(c: Procedure, oks: seq<bool>, k: nat): byte
    requires k < |c.contexts| == |oks|
  {
    if c.contexts[k].cause == ACCEPTED && !Commits(c, oks, k) then SYSTEM_FAILURE else c.contexts[k].cause
  }

  function Complete1(c: Procedure, oks: seq<bool>, o: Outcome, k: nat): Outcome
    requires |c.contexts| == |c.provs| && k < |c.contexts| == |oks|
  {
    var p := c.provs[MatchOf(c, k)];
    var done :=
      if Commits(c, oks, k) then o.(bearers := o.bearers[c.contexts[k].ebi := NewBearer(p, c.contexts[k], c.at)])
      else if c.contexts[k].cause == ACCEPTED || !Rejects(c) then RollBack(o, p.ids, c.contexts[k].removable)
      else o;
    done.(causes := o.causes + [FinalCause(c, oks, k)])
  }

  function RollBackAll(o: Outcome, provs: seq<Provision>, bound: bool): Outcome {
    if provs == [] then o else RollBack(RollBackAll(o, provs[..|provs| - 1], bound), provs[|provs| - 1].ids, bound)
  }

  function Begun(c: Procedure): Outcome {
    var o := Outcome(c.bearers, {}, [], []);
    if Rejects(c) then RollBackAll(o, c.provs, c.removable) else o
  }

  /** After the first k contexts. */
  function After(c: Procedure, oks: seq<bool>, k: nat): Outcome
    requires |c.contexts| == |c.provs| && k <= |c.contexts| == |oks|
  {
    if k == 0 then Begun(c) else Complete1(c, oks, After(c, oks, k - 1), k - 1)
  }

  function Completed(c: Procedure, oks: seq<bool>): Outcome
    requires |c.contexts| == |c.provs| && |oks| == |c.contexts|
  {
    After(c, oks, |c.contexts|)
  }

  // ---- What the loop leaves behind --------------------------------------------

  /** The last of the first k contexts that stored a bearer under an EBI. */
  function LastCommit(c: Procedure, oks: seq<bool>, k: nat, e: byte): Option<nat>
    requires k <= |c.contexts| == |oks|
  {
    if k == 0 then None
    else if Commits(c, oks, k - 1) && c.contexts[k - 1].ebi == e then Some(k - 1)
    else LastCommit(c, oks, k - 1, e)
  }

  lemma {:induction false} LastCommitIsLast(c: Procedure, oks: seq<bool>, k: nat, e: byte)
    requires k <= |c.contexts| == |oks|
    ensures match LastCommit(c, oks, k, e)
            case None => forall j :: 0 <= j < k && Commits(c, oks, j) ==> c.contexts[j].ebi != e
            case Some(j) => j < k && Commits(c, oks, j) && c.contexts[j].ebi == e &&
                            forall x :: j < x < k && Commits(c, oks, x) ==> c.contexts[x].ebi != e
  {
    if k > 0 {
      LastCommitIsLast(c, oks, k - 1, e);
    }
  }

  /** Stored bearers: per EBI the last commit, or what was there before. */
  lemma {:induction false} BearersAfter(c: Procedure, oks: seq<bool>, k: nat, e: byte)
    requires |c.contexts| == |c.provs| && k <= |c.contexts| == |oks|
    ensures var o := After(c, oks, k);
            match LastCommit(c, oks, k, e)
            case None => (e in o.bearers <==> e in c.bearers) && (e in c.bearers ==> o.bearers[e] == c.bearers[e])
            case Some(j) => j < k && e in o.bearers && o.bearers[e] == NewBearer(c.provs[MatchOf(c, j)], c.contexts[j], c.at)
  {
    hide NewBearer, MatchOf, Acceptable;
    if k == 0 {
      RollBackAllMarks(Outcome(c.bearers, {}, [], []), c.provs, c.removable);
    } else {
      BearersAfter(c, oks, k - 1, e);
    }
  }

  ghost predicate Once(removals: seq<RuleIds>, rolledBack: set<RuleIds>) {
    && (forall i, j :: 0 <= i < j < |removals| ==> removals[i] != removals[j])
    && (forall ids :: ids in removals ==> ids in rolledBack)
  }

  lemma RollBackOnce(o: Outcome, ids: RuleIds, bound: bool)
    requires Once(o.removals, o.rolledBack)
    ensures Once(RollBack(o, ids, bound).removals, RollBack(o, ids, bound).rolledBack)
  {
  }

  lemma {:induction false} RollBackAllMarks(o: Outcome, provs: seq<Provision>, bound: bool)
    ensures var r := RollBackAll(o, provs, bound);
            && r.bearers == o.bearers && r.causes == o.causes
            && (forall ids :: ids in r.rolledBack <==> ids in o.rolledBack || exists i :: 0 <= i < |provs| && provs[i].ids == ids)
            && (Once(o.removals, o.rolledBack) ==> Once(r.removals, r.rolledBack))
  {
    if provs != [] {
      var before := provs[..|provs| - 1];
      RollBackAllMarks(o, before, bound);
      if Once(o.removals, o.rolledBack) {
        RollBackOnce(RollBackAll(o, before, bound), provs[|provs| - 1].ids, bound);
      }
      hide Once;
      var r := RollBackAll(o, provs, bound);
      forall ids ensures ids in r.rolledBack <==> ids in o.rolledBack || exists i :: 0 <= i < |provs| && provs[i].ids == ids {
        if exists i :: 0 <= i < |before| && before[i].ids == ids {
          var i :| 0 <= i < |before| && before[i].ids == ids;
          assert provs[i].ids == ids;
        }
      }
    }
  }

  /** Rejecting everything asks for all removals, or for none. */
  lemma {:induction false} RollBackAllSends(o: Outcome, provs: seq<Provision>, bound: bool)
    ensures !bound ==> RollBackAll(o, provs, bound).removals == o.removals
    ensures bound && (forall ids :: ids in o.rolledBack ==> ids in o.removals) ==>
              forall ids :: ids in RollBackAll(o, provs, bound).rolledBack ==> ids in RollBackAll(o, provs, bound).removals
  {
    if provs != [] {
      RollBackAllSends(o, provs[..|provs| - 1], bound);
    }
  }

  /** A rule set is rolled back when the whole procedure is rejected, or by a context that does not commit it. */
  ghost predicate RollsBack(c: Procedure, oks: seq<bool>, k: nat, ids: RuleIds)
    requires |c.contexts| == |c.provs| && k <= |c.contexts| == |oks|
  {
    || (Rejects(c) && exists i :: 0 <= i < |c.provs| && c.provs[i].ids == ids)
    || (exists j :: 0 <= j < k && Frees(c, oks, j, ids))
  }

  predicate Frees(c: Procedure, oks: seq<bool>, j: nat, ids: RuleIds)
    requires |c.contexts| == |c.provs| && j < |c.contexts| == |oks|
  {
    !Commits(c, oks, j) && c.provs[MatchOf(c, j)].ids == ids
  }

  lemma {:induction false} RolledBackAfter(c: Procedure, oks: seq<bool>, k: nat)
    requires |c.contexts| == |c.provs| && k <= |c.contexts| == |oks|
    ensures Once(After(c, oks, k).removals, After(c, oks, k).rolledBack)
    ensures forall ids :: ids in After(c, oks, k).rolledBack <==> RollsBack(c, oks, k, ids)
  {
    if k == 0 {
      RollBackAllMarks(Outcome(c.bearers, {}, [], []), c.provs, c.removable);
    } else {
      RolledBackAfter(c, oks, k - 1);
      RolledBackStep(c, oks, k - 1, k);
    }
  }

  lemma RolledBackStep(c: Procedure, oks: seq<bool>, k: nat, n: nat)
    requires |c.contexts| == |c.provs| && k < |c.contexts| == |oks| && n == k + 1
    requires Once(After(c, oks, k).removals, After(c, oks, k).rolledBack)
    requires forall ids :: ids in After(c, oks, k).rolledBack <==> RollsBack(c, oks, k, ids)
    ensures Once(After(c, oks, n).removals, After(c, oks, n).rolledBack)
    ensures forall ids :: ids in After(c, oks, n).rolledBack <==> RollsBack(c, oks, n, ids)
  {
    hide Once, MatchOf, NewBearer, RollsBack;
    var o, ids := After(c, oks, k), c.provs[MatchOf(c, k)].ids;
    RollBackOnce(o, ids, c.contexts[k].removable);
    forall x ensures RollsBack(c, oks, n, x) <==> RollsBack(c, oks, k, x) || (!Commits(c, oks, k) && x == ids) {
      RollsBackSnoc(c, oks, k, x);
    }
    if Rejects(c) {
      assert RollsBack(c, oks, k, ids) by { RejectedRollsBack(c, oks, k, MatchOf(c, k)); }
    }
    assert After(c, oks, n) == Complete1(c, oks, o, k);
  }

  lemma RollsBackSnoc(c: Procedure, oks: seq<bool>, k: nat, ids: RuleIds)
    requires |c.contexts| == |c.provs| && k < |c.contexts| == |oks|
    ensures RollsBack(c, oks, k + 1, ids) <==>
            RollsBack(c, oks, k, ids) || (!Commits(c, oks, k) && ids == c.provs[MatchOf(c, k)].ids)
  {
    hide MatchOf, Commits;
    assert Frees(c, oks, k, ids) <==> !Commits(c, oks, k) && ids == c.provs[MatchOf(c, k)].ids;
  }

  lemma RejectedRollsBack(c: Procedure, oks: seq<bool>, k: nat, i: nat)
    requires |c.contexts| == |c.provs| && k <= |c.contexts| == |oks| && i < |c.provs| && Rejects(c)
    ensures RollsBack(c, oks, k, c.provs[i].ids)
  {
  }

  // ---- What the SGW-U is asked to remove --------------------------------------

  /** Every removal finds the session bound to its SGW-U. */
  predicate Removable(c: Procedure) {
    if Rejects(c) then c.provs == [] || c.removable
    else forall k :: 0 <= k < |c.contexts| ==> c.contexts[k].removable
  }

  /** What was asked to be removed was asked by the rejection, or by a context that found the session bound. */
  ghost predicate Asked(c: Procedure, oks: seq<bool>, k: nat, ids: RuleIds)
    requires |c.contexts| == |c.provs| && k <= |c.contexts| == |oks|
  {
    if Rejects(c) then c.removable else exists j :: 0 <= j < k && Frees(c, oks, j, ids) && c.contexts[j].removable
  }

  lemma {:induction false} RemovalsAfter(c: Procedure, oks: seq<bool>, k: nat)
    requires |c.contexts| == |c.provs| && k <= |c.contexts| == |oks|
    ensures forall ids :: ids in After(c, oks, k).removals ==> Asked(c, oks, k, ids)
    ensures Removable(c) ==> forall ids :: ids in After(c, oks, k).rolledBack ==> ids in After(c, oks, k).removals
  {
    if k == 0 {
      RollBackAllSends(Outcome(c.bearers, {}, [], []), c.provs, c.removable);
    } else {
      RemovalsAfter(c, oks, k - 1);
      RolledBackAfter(c, oks, k - 1);
      RemovalsStep(c, oks, k - 1, k);
    }
  }

  lemma RemovalsStep(c: Procedure, oks: seq<bool>, k: nat, n: nat)
    requires |c.contexts| == |c.provs| && k < |c.contexts| == |oks| && n == k + 1
    requires forall ids :: ids in After(c, oks, k).removals ==> Asked(c, oks, k, ids)
    requires forall ids :: ids in After(c, oks, k).rolledBack <==> RollsBack(c, oks, k, ids)
    requires Removable(c) ==> forall ids :: ids in After(c, oks, k).rolledBack ==> ids in After(c, oks, k).removals
    ensures forall ids :: ids in After(c, oks, n).removals ==> Asked(c, oks, n, ids)
    ensures Removable(c) ==> forall ids :: ids in After(c, oks, n).rolledBack ==> ids in After(c, oks, n).removals
  {
    hide MatchOf, NewBearer, RollsBack, Commits;
    var o, ids := After(c, oks, k), c.provs[MatchOf(c, k)].ids;
    assert After(c, oks, n) == Complete1(c, oks, o, k);
    if Rejects(c) {
      assert RollsBack(c, oks, k, ids) by { RejectedRollsBack(c, oks, k, MatchOf(c, k)); }
    } else if !Commits(c, oks, k) {
      assert Frees(c, oks, k, ids);
    }
  }

  // ---- Every rule set is settled ----------------------------------------------

  /** Owned by exactly one stored active bearer and never rolled back, or rolled back exactly once and owned by none. */
  ghost predicate Settled(o: Outcome, ids: RuleIds) {
    || (ids !in o.removals &&
        exists e :: OwnedUnder(o, e, ids) && o.bearers[e].state == "active" && forall x :: OwnedUnder(o, x, ids) ==> x == e)
    || ((forall e :: !OwnedUnder(o, e, ids)) && multiset(o.removals)[ids] == 1)
  }

  predicate OwnedUnder(o: Outcome, e: byte, ids: RuleIds) {
    e in o.bearers && Owns(o.bearers[e], ids)
  }

  /** Contexts speak of different rule sets. */
  predicate Paired(c: Procedure)
    requires |c.contexts| == |c.provs|
  {
    forall j: nat, k: nat, i: nat :: j < k < |c.contexts| && i < |c.provs| && SpeaksOf(c, j, i) ==> !SpeaksOf(c, k, i)
  }

  lemma PairedByMatch(c: Procedure)
    requires |c.contexts| == |c.provs|
    ensures Paired(c) <==> forall j, k :: 0 <= j < k < |c.contexts| ==> MatchOf(c, j) != MatchOf(c, k)
  {
    hide MatchOf, SpeaksOf;
    forall k: nat | k < |c.contexts| ensures forall i: nat :: i < |c.provs| ==> (SpeaksOf(c, k, i) <==> i == MatchOf(c, k)) {
      MatchIsSpoken(c, k);
    }
    if Paired(c) {
      forall j: nat, k: nat | j < k < |c.contexts| ensures MatchOf(c, j) != MatchOf(c, k) {
        assert SpeaksOf(c, j, MatchOf(c, j)) && SpeaksOf(c, k, MatchOf(c, k));
      }
    } else {
      var j: nat, k: nat, i: nat :| j < k < |c.contexts| && i < |c.provs| && SpeaksOf(c, j, i) && SpeaksOf(c, k, i);
      assert MatchOf(c, j) == i == MatchOf(c, k);
    }
  }

  /** Contexts speak of different rule sets, and acceptable ones name different EBIs. */
  predicate NoClash(c: Procedure)
    requires |c.contexts| == |c.provs|
  {
    && Paired(c)
    && forall j, k :: 0 <= j < k < |c.contexts| && Acceptable(c, j) && Acceptable(c, k) ==>
         c.contexts[j].ebi != c.contexts[k].ebi
  }

  /** What a caller can read off the response: a rejection accepts nothing; otherwise pairs and EBIs do not clash. */
  predicate WellBehaved(c: Procedure)
    requires |c.contexts| == |c.provs|
  {
    if Rejects(c) then forall k :: 0 <= k < |c.contexts| ==> !Acceptable(c, k) else NoClash(c)
  }

  /** Who owns a rule set in the end: the last commit under an EBI, when it was made for that rule set. */
  lemma OwnersAfter(c: Procedure, oks: seq<bool>, i: nat, e: byte)
    requires Valid(c) && |oks| == |c.contexts| && i < |c.provs|
    ensures var last := LastCommit(c, oks, |oks|, e);
            OwnedUnder(Completed(c, oks), e, c.provs[i].ids) <==>
            last.Some? && last.value < |oks| && MatchOf(c, last.value) == i
    ensures OwnedUnder(Completed(c, oks), e, c.provs[i].ids) ==> Completed(c, oks).bearers[e].state == "active"
  {
    hide After, MatchOf, LastCommit;
    BearersAfter(c, oks, |oks|, e);
    var last := LastCommit(c, oks, |oks|, e);
    if last.Some? {
      NewBearerOwns(c, MatchOf(c, last.value), c.contexts[last.value], i);
    }
  }

  lemma NewBearerOwns(c: Procedure, m: nat, ctx: Context, i: nat)
    requires Valid(c) && m < |c.provs| && i < |c.provs|
    ensures NewBearer(c.provs[m], ctx, c.at).state == "active"
    ensures Owns(NewBearer(c.provs[m], ctx, c.at), c.provs[i].ids) <==> m == i
  {
    if Owns(NewBearer(c.provs[m], ctx, c.at), c.provs[i].ids) {
      assert c.provs[m].ids == c.provs[i].ids;
    }
  }

  lemma CountOnce(removals: seq<RuleIds>, ids: RuleIds)
    requires forall i, j :: 0 <= i < j < |removals| ==> removals[i] != removals[j]
    ensures multiset(removals)[ids] == if ids in removals then 1 else 0
  {
    if ids in removals {
      var i :| 0 <= i < |removals| && removals[i] == ids;
      assert removals == removals[..i] + [ids] + removals[i + 1..];
      assert ids !in removals[..i] && ids !in removals[i + 1..];
    }
  }

  /** Whether a rule set is settled, by its rollback and its owners. */
  lemma SettledCases(c: Procedure, oks: seq<bool>, i: nat)
    requires Valid(c) && |oks| == |c.contexts| && i < |c.provs|
    ensures var o, ids := Completed(c, oks), c.provs[i].ids;
            if RollsBack(c, oks, |oks|, ids) then
              Removable(c) ==> (Settled(o, ids) <==> forall e :: !OwnedUnder(o, e, ids))
            else
              Settled(o, ids) <==> exists e :: OwnedUnder(o, e, ids) && forall x :: OwnedUnder(o, x, ids) ==> x == e
  {
    hide After, RollsBack, OwnedUnder, Removable;
    var o, ids := Completed(c, oks), c.provs[i].ids;
    RolledBackAfter(c, oks, |oks|);
    RemovalsAfter(c, oks, |oks|);
    CountOnce(o.removals, ids);
    forall e ensures OwnedUnder(o, e, ids) ==> e in o.bearers && o.bearers[e].state == "active" {
      OwnersAfter(c, oks, i, e);
      OwnedIsStored(o, e, ids);
    }
  }

  lemma OwnedIsStored(o: Outcome, e: byte, ids: RuleIds)
    ensures OwnedUnder(o, e, ids) ==> e in o.bearers
  {
  }

  // ---- Pairing ----------------------------------------------------------------

  predicate Distinct(ms: seq<nat>) {
    forall j, k :: 0 <= j < k < |ms| ==> ms[j] != ms[k]
  }

  predicate Onto(ms: seq<nat>) {
    forall i :: 0 <= i < |ms| ==> i in ms
  }

  function Range(n: nat): (s: set<nat>)
    ensures |s| == n && forall i: nat :: i in s <==> i < n
  {
    if n == 0 then {}
    else
      var before := Range(n - 1);
      before + {n - 1}
  }

  function Image(ms: seq<nat>): (s: set<nat>)
    ensures forall x :: x in s <==> x in ms
  {
    if ms == [] then {}
    else
      assert ms == ms[..|ms| - 1] + [ms[|ms| - 1]];
      Image(ms[..|ms| - 1]) + {ms[|ms| - 1]}
  }

  lemma DistinctSnoc(before: seq<nat>, last: nat)
    ensures Distinct(before + [last]) <==> Distinct(before) && last !in before
  {
    var ms := before + [last];
    if Distinct(ms) {
      forall j | 0 <= j < |before| ensures before[j] != last {
        assert ms[j] != ms[|before|];
      }
      forall j, k | 0 <= j < k < |before| ensures before[j] != before[k] {
        assert ms[j] != ms[k];
      }
    }
  }

  lemma {:induction false} DistinctIffFull(ms: seq<nat>)
    ensures |Image(ms)| <= |ms| && (|Image(ms)| == |ms| <==> Distinct(ms))
  {
    if ms != [] {
      var before, last := ms[..|ms| - 1], ms[|ms| - 1];
      DistinctIffFull(before);
      assert ms == before + [last];
      DistinctSnoc(before, last);
      hide Distinct;
      if last in before {
        assert Image(ms) == Image(before);
      }
    }
  }

  lemma SubsetOfSameSize(a: set<nat>, b: set<nat>)
    requires a <= b
    ensures |a| <= |b| && (|a| == |b| <==> a == b)
  {
    assert b == a + (b - a);
  }

  /** Pigeonhole: positions map to positions without clash exactly when every position is met. */
  lemma DistinctIffOnto(ms: seq<nat>)
    requires forall k :: 0 <= k < |ms| ==> ms[k] < |ms|
    ensures Distinct(ms) <==> Onto(ms)
  {
    hide Distinct;
    var image := Image(ms);
    DistinctIffFull(ms);
    SubsetOfSameSize(image, Range(|ms|));
    assert Onto(ms) <==> image == Range(|ms|) by {
      if Onto(ms) {
        assert forall i :: i in Range(|ms|) ==> i in image;
      } else {
        var i :| 0 <= i < |ms| && i !in ms;
        assert i in Range(|ms|) && i !in image;
      }
    }
  }

  function Matches(c: Procedure): (ms: seq<nat>)
    requires |c.contexts| == |c.provs|
    ensures |ms| == |c.contexts|
    ensures forall k :: 0 <= k < |ms| ==> ms[k] == MatchOf(c, k)
  {
    seq(|c.contexts|, k requires 0 <= k < |c.contexts| => MatchOf(c, k))
  }

  /** Some context speaks of the rule set. */
  ghost predicate SpokenOf(c: Procedure, i: nat)
    requires |c.contexts| == |c.provs| && i < |c.provs|
  {
    exists k: nat :: k < |c.contexts| && SpeaksOf(c, k, i)
  }

  /** Contexts that do not clash leave no rule set out, and clashing ones do. */
  lemma PairedIffCovered(c: Procedure)
    requires |c.contexts| == |c.provs|
    ensures Paired(c) <==> forall i :: 0 <= i < |c.provs| ==> SpokenOf(c, i)
  {
    hide MatchOf, SpeaksOf;
    var ms := Matches(c);
    MatchesPair(c);
    DistinctIffOnto(ms);
    forall i: nat | i < |c.provs| ensures i in ms <==> SpokenOf(c, i) {
      forall k: nat | k < |ms| ensures ms[k] == i <==> SpeaksOf(c, k, i) {
        MatchIsSpoken(c, k);
      }
      if i in ms {
        var k: nat :| k < |ms| && ms[k] == i;
        assert SpeaksOf(c, k, i);
      }
    }
  }

  lemma MatchesPair(c: Procedure)
    requires |c.contexts| == |c.provs|
    ensures Paired(c) <==> Distinct(Matches(c))
  {
    hide MatchOf, Paired;
    var ms := Matches(c);
    PairedByMatch(c);
    if Paired(c) {
      forall j, k | 0 <= j < k < |ms| ensures ms[j] != ms[k] {
        assert MatchOf(c, j) != MatchOf(c, k);
      }
    } else {
      var j, k :| 0 <= j < k < |c.contexts| && MatchOf(c, j) == MatchOf(c, k);
      assert ms[j] == ms[k];
    }
  }

  // ---- The disposition theorem ------------------------------------------------

  ghost predicate AllSettled(c: Procedure, oks: seq<bool>)
    requires |c.contexts| == |c.provs| && |oks| == |c.contexts|
  {
    forall i :: 0 <= i < |c.provs| ==> Settled(Completed(c, oks), c.provs[i].ids)
  }

  lemma LastCommitOf(c: Procedure, oks: seq<bool>, k: nat)
    requires |oks| == |c.contexts| && k < |oks| && Commits(c, oks, k)
    requires forall x :: k < x < |oks| && Commits(c, oks, x) ==> c.contexts[x].ebi != c.contexts[k].ebi
    ensures LastCommit(c, oks, |oks|, c.contexts[k].ebi) == Some(k)
  {
    hide Acceptable;
    LastCommitIsLast(c, oks, |oks|, c.contexts[k].ebi);
  }

  /** A rule set whose one context commits ends up owned, once, and is not rolled back. */
  lemma CommittedIsSettled(c: Procedure, oks: seq<bool>, k: nat)
    requires Valid(c) && |oks| == |c.contexts| && !Rejects(c) && WellBehaved(c) && k < |oks| && Commits(c, oks, k)
    ensures Settled(Completed(c, oks), c.provs[MatchOf(c, k)].ids)
  {
    hide After, MatchOf, LastCommit, Settled, OwnedUnder, Paired;
    PairedByMatch(c);
    var i, e := MatchOf(c, k), c.contexts[k].ebi;
    var o, ids := Completed(c, oks), c.provs[i].ids;
    SettledCases(c, oks, i);
    LastCommitOf(c, oks, k);
    OwnersAfter(c, oks, i, e);
    forall x | OwnedUnder(o, x, ids) ensures x == e {
      OwnersAfter(c, oks, i, x);
      LastCommitIsLast(c, oks, |oks|, x);
    }
    NotFreed(c, oks, k);
  }

  /**
   * The bearer a commit stores joins the MME's answer to the rule set its context speaks of,
   * whatever the rest of the response says: the last context to commit under an EBI decides.
   */
  lemma CommittedBearerFields(c: Procedure, oks: seq<bool>, k: nat, i: nat)
    requires |oks| == |c.contexts| == |c.provs| && k < |oks| && i < |c.provs| && SpeaksOf(c, k, i)
    requires c.contexts[k].cause == ACCEPTED && c.contexts[k].enb.teid != 0 && c.contexts[k].bound && oks[k]
    requires forall x :: k < x < |oks| && Commits(c, oks, x) ==> c.contexts[x].ebi != c.contexts[k].ebi
    ensures var o, ctx, p := Completed(c, oks), c.contexts[k], c.provs[i];
            && ctx.ebi in o.bearers
            && var b := o.bearers[ctx.ebi];
               && Owns(b, p.ids) && b.ebi == ctx.ebi && b.enbS1U == ctx.enb && b.state == "active"
               && b.sgwS1U == p.sgwS1U && b.sgwS5U == p.sgwS5U && b.pgwS5U == p.pgwS5U && b.tft == Some(p.tft)
               && b.mbrUplink == b.mbrDownlink == b.gbrUplink == b.gbrDownlink == 0
               && b.lastControlActivityAt == c.at && b.lastActivitySource == "set_bearer"
               && b.lastUserPlaneActivityAt == b.inactiveSince == 0 && !b.cleanupEligible
               && (|p.qos| < 2 ==> b.qci == 0 && b.arp == ARP(0, false, false))
               && (|p.qos| >= 2 ==> b.qci == p.qos[1] && b.arp.priorityLevel == p.qos[0] / 4 % 16 &&
                                    b.arp.preemptionCapability == (p.qos[0] / 64 % 2 == 1) &&
                                    b.arp.preemptionVulnerability == (p.qos[0] % 2 == 1))
  {
    hide After, MatchOf, LastCommit, SpeaksOf;
    MatchIsSpoken(c, k);
    LastCommitOf(c, oks, k);
    BearersAfter(c, oks, |oks|, c.contexts[k].ebi);
  }

  lemma {:induction false} RemovalsGrow(c: Procedure, oks: seq<bool>, j: nat, k: nat, ids: RuleIds)
    requires |c.contexts| == |c.provs| && j <= k <= |c.contexts| == |oks| && ids in After(c, oks, j).removals
    ensures ids in After(c, oks, k).removals
  {
    hide MatchOf, NewBearer, Commits;
    if j < k {
      RemovalsGrow(c, oks, j, k - 1, ids);
    }
  }

  /** A context that frees a rule set, and is the only one to speak of it, has it removed exactly when the session is bound. */
  lemma RemovedWhenBound(c: Procedure, oks: seq<bool>, k: nat)
    requires Valid(c) && |oks| == |c.contexts| && !Rejects(c) && Paired(c) && k < |oks| && !Commits(c, oks, k)
    ensures c.provs[MatchOf(c, k)].ids in Completed(c, oks).removals <==> c.contexts[k].removable
  {
    hide MatchOf, NewBearer, Commits, Paired, After;
    var ids := c.provs[MatchOf(c, k)].ids;
    PairedByMatch(c);
    assert forall j :: 0 <= j < |oks| && Frees(c, oks, j, ids) ==> j == k;
    RemovalsAfter(c, oks, |oks|);
    if c.contexts[k].removable {
      RolledBackAfter(c, oks, k);
      AfterNext(c, oks, k);
      RemovalsGrow(c, oks, k + 1, |oks|, ids);
    }
  }

  /**
   * Whose rules a bearer gets: when nothing clashes, the rule set a context speaks of is owned
   * by the bearer stored under the context's EBI, and by no other, if the MME accepted the
   * context with an endpoint, the session is bound and the SGW-U took the endpoint; and
   * otherwise by no bearer, its removal being asked once when the session is still bound.
   */
  lemma EchoDecidesOwner(c: Procedure, oks: seq<bool>, k: nat, i: nat)
    requires Valid(c) && |oks| == |c.contexts| && (c.cause == ACCEPTED || c.cause == PARTIAL) && NoClash(c)
    requires k < |oks| && i < |c.provs| && SpeaksOf(c, k, i)
    ensures var o, ctx, ids := Completed(c, oks), c.contexts[k], c.provs[i].ids;
            if ctx.cause == ACCEPTED && ctx.enb.teid != 0 && ctx.bound && oks[k] then
              ids !in o.removals && forall e :: OwnedUnder(o, e, ids) <==> e == ctx.ebi
            else
              multiset(o.removals)[ids] == (if ctx.removable then 1 else 0) && forall e :: !OwnedUnder(o, e, ids)
  {
    hide After, MatchOf, LastCommit, OwnedUnder, SpeaksOf, RollsBack, Paired;
    MatchIsSpoken(c, k);
    PairedByMatch(c);
    RolledBackAfter(c, oks, |oks|);
    CountOnce(Completed(c, oks).removals, c.provs[i].ids);
    if Commits(c, oks, k) {
      NotFreed(c, oks, k);
      LastCommitOf(c, oks, k);
    } else {
      RemovedWhenBound(c, oks, k);
    }
    forall e ensures OwnedUnder(Completed(c, oks), e, c.provs[i].ids) <==> Commits(c, oks, k) && e == c.contexts[k].ebi {
      OwnersAfter(c, oks, i, e);
      LastCommitIsLast(c, oks, |oks|, e);
    }
  }

  /** A rejecting message that accepts no context leaves every rule set without an owner, its removal asked once if bound. */
  lemma RejectionRemovesAll(c: Procedure, oks: seq<bool>, i: nat)
    requires Valid(c) && |oks| == |c.contexts| && c.cause != ACCEPTED && c.cause != PARTIAL && i < |c.provs|
    requires forall k :: 0 <= k < |oks| ==> !(c.contexts[k].cause == ACCEPTED && c.contexts[k].enb.teid != 0 && c.contexts[k].bound)
    ensures var o, ids := Completed(c, oks), c.provs[i].ids;
            multiset(o.removals)[ids] == (if c.removable then 1 else 0) && forall e :: !OwnedUnder(o, e, ids)
  {
    hide After, MatchOf, LastCommit, OwnedUnder, RollsBack;
    RejectedRollsBack(c, oks, |oks|, i);
    RolledBackAfter(c, oks, |oks|);
    RemovalsAfter(c, oks, |oks|);
    CountOnce(Completed(c, oks).removals, c.provs[i].ids);
    forall e ensures !OwnedUnder(Completed(c, oks), e, c.provs[i].ids) {
      OwnersAfter(c, oks, i, e);
      LastCommitIsLast(c, oks, |oks|, e);
    }
  }

  lemma NotFreed(c: Procedure, oks: seq<bool>, k: nat)
    requires Valid(c) && |oks| == |c.contexts| && !Rejects(c) && Paired(c) && k < |oks| && Commits(c, oks, k)
    ensures !RollsBack(c, oks, |oks|, c.provs[MatchOf(c, k)].ids)
  {
    hide MatchOf, Acceptable, Paired;
    PairedByMatch(c);
    forall j | 0 <= j < |oks| ensures !Frees(c, oks, j, c.provs[MatchOf(c, k)].ids) {
    }
  }

  /** A rule set freed by a context, or by the rejection of all, and committed by none, is rolled back once. */
  lemma FreedIsSettled(c: Procedure, oks: seq<bool>, i: nat)
    requires Valid(c) && Removable(c) && |oks| == |c.contexts| && i < |c.provs|
    requires RollsBack(c, oks, |oks|, c.provs[i].ids)
    requires forall k :: 0 <= k < |oks| && Commits(c, oks, k) ==> MatchOf(c, k) != i
    ensures Settled(Completed(c, oks), c.provs[i].ids)
  {
    hide After, MatchOf, LastCommit, Settled, OwnedUnder, RollsBack, Acceptable, Removable;
    SettledCases(c, oks, i);
    forall e ensures !OwnedUnder(Completed(c, oks), e, c.provs[i].ids) {
      OwnersAfter(c, oks, i, e);
      LastCommitIsLast(c, oks, |oks|, e);
    }
  }

  /** A well-behaved response settles every rule set, whatever the SGW-U answers, while the session stays bound to it. */
  lemma WellBehavedSettles(c: Procedure, oks: seq<bool>)
    requires Valid(c) && |oks| == |c.contexts| && WellBehaved(c) && Removable(c)
    ensures AllSettled(c, oks)
  {
    hide MatchOf, Completed, Settled, RollsBack, Removable, SpeaksOf, Paired;
    forall i | 0 <= i < |c.provs| ensures Settled(Completed(c, oks), c.provs[i].ids) {
      if Rejects(c) {
        RejectedRollsBack(c, oks, |oks|, i);
        FreedIsSettled(c, oks, i);
      } else {
        PairedIffCovered(c);
        assert SpokenOf(c, i);
        var k: nat :| k < |c.contexts| && SpeaksOf(c, k, i);
        MatchIsSpoken(c, k);
        PairedByMatch(c);
        if Commits(c, oks, k) {
          CommittedIsSettled(c, oks, k);
        } else {
          FreedByContext(c, oks, k);
          FreedIsSettled(c, oks, i);
        }
      }
    }
  }

  lemma FreedByContext(c: Procedure, oks: seq<bool>, k: nat)
    requires |c.contexts| == |c.provs| && k < |c.contexts| == |oks| && !Commits(c, oks, k)
    ensures RollsBack(c, oks, |oks|, c.provs[MatchOf(c, k)].ids)
  {
    assert Frees(c, oks, k, c.provs[MatchOf(c, k)].ids);
  }

  function AllTrue(n: nat): (oks: seq<bool>)
    ensures |oks| == n && forall k :: 0 <= k < n ==> oks[k]
  {
    seq(n, _ => true)
  }

  /** When a rejecting response accepts a context, a rule set can end up both stored and removed. */
  lemma RejectedYetCommitted(c: Procedure, k: nat)
    requires Valid(c) && Rejects(c) && c.removable && k < |c.contexts| && Acceptable(c, k)
    requires forall x :: k < x < |c.contexts| && Acceptable(c, x) ==> c.contexts[x].ebi != c.contexts[k].ebi
    ensures !AllSettled(c, AllTrue(|c.contexts|))
  {
    hide After, MatchOf, Settled, OwnedUnder, LastCommit, RollsBack;
    var oks, i := AllTrue(|c.contexts|), MatchOf(c, k);
    SettledCases(c, oks, i);
    RejectedRollsBack(c, oks, |oks|, i);
    LastCommitOf(c, oks, k);
    OwnersAfter(c, oks, i, c.contexts[k].ebi);
    assert !Settled(Completed(c, oks), c.provs[i].ids);
  }

  /** When contexts clash, some rule set is met by none and stays installed with no owner. */
  lemma UnpairedIsLost(c: Procedure)
    requires Valid(c) && !Rejects(c) && !Paired(c)
    ensures !AllSettled(c, AllTrue(|c.contexts|))
  {
    hide After, MatchOf, Settled, OwnedUnder, LastCommit, Paired;
    var oks := AllTrue(|c.contexts|);
    PairedIffCovered(c);
    var i: nat :| i < |c.provs| && !SpokenOf(c, i);
    forall k: nat | k < |c.contexts| ensures MatchOf(c, k) != i {
      assert !SpeaksOf(c, k, i);
      MatchIsSpoken(c, k);
    }
    SettledCases(c, oks, i);
    forall e ensures !OwnedUnder(Completed(c, oks), e, c.provs[i].ids) {
      OwnersAfter(c, oks, i, e);
    }
    assert !RollsBack(c, oks, |oks|, c.provs[i].ids);
    assert !Settled(Completed(c, oks), c.provs[i].ids);
  }

  /** When two accepted contexts name one EBI, the earlier bearer is overwritten and its rule set left behind. */
  lemma OverwrittenIsLost(c: Procedure, j: nat, k: nat)
    requires Valid(c) && !Rejects(c) && Paired(c) && j < k < |c.contexts|
    requires Acceptable(c, j) && Acceptable(c, k) && c.contexts[j].ebi == c.contexts[k].ebi
    ensures !AllSettled(c, AllTrue(|c.contexts|))
  {
    hide After, MatchOf, Settled, OwnedUnder, LastCommit, RollsBack, Paired;
    PairedByMatch(c);
    var oks, i := AllTrue(|c.contexts|), MatchOf(c, j);
    SettledCases(c, oks, i);
    NotFreed(c, oks, j);
    forall e ensures !OwnedUnder(Completed(c, oks), e, c.provs[i].ids) {
      OwnersAfter(c, oks, i, e);
      LastCommitIsLast(c, oks, |oks|, e);
    }
    assert !Settled(Completed(c, oks), c.provs[i].ids);
  }

  lemma {:induction false} LastAcceptable(c: Procedure, k: nat) returns (last: nat)
    requires k < |c.contexts| && Acceptable(c, k)
    ensures last < |c.contexts| && Acceptable(c, last)
    ensures forall x :: last < x < |c.contexts| && Acceptable(c, x) ==> c.contexts[x].ebi != c.contexts[last].ebi
    decreases |c.contexts| - k
  {
    if x :| k < x < |c.contexts| && Acceptable(c, x) {
      last := LastAcceptable(c, x);
    } else {
      last := k;
    }
  }

  function AllFalse(n: nat): (oks: seq<bool>)
    ensures |oks| == n && forall k :: 0 <= k < n ==> !oks[k]
  {
    seq(n, _ => false)
  }

  /** A rule set that no bearer owns and whose removal was never asked is not settled. */
  lemma LeftBehind(o: Outcome, ids: RuleIds)
    requires ids !in o.removals && forall e :: !OwnedUnder(o, e, ids)
    ensures !Settled(o, ids)
  {
    hide OwnedUnder;
  }

  /** When the SGW-U accepts no endpoint, a rule set is owned by none. */
  lemma NothingCommits(c: Procedure, i: nat, e: byte)
    requires Valid(c) && i < |c.provs|
    ensures !OwnedUnder(Completed(c, AllFalse(|c.contexts|)), e, c.provs[i].ids)
  {
    hide After, MatchOf, OwnedUnder, LastCommit;
    var oks := AllFalse(|c.contexts|);
    OwnersAfter(c, oks, i, e);
    LastCommitIsLast(c, oks, |oks|, e);
  }

  /** When the session is unbound at a removal, a rule set stays installed with no owner and its removal never asked. */
  lemma UnboundIsLost(c: Procedure)
    requires Valid(c) && !Removable(c) && (Rejects(c) || Paired(c))
    ensures !AllSettled(c, AllFalse(|c.contexts|))
  {
    hide After, MatchOf, Settled, OwnedUnder, Acceptable, Paired;
    PairedByMatch(c);
    var oks := AllFalse(|c.contexts|);
    RemovalsAfter(c, oks, |oks|);
    var k :| 0 <= k < |c.contexts| && (!Rejects(c) ==> !c.contexts[k].removable);
    var ids := c.provs[MatchOf(c, k)].ids;
    assert !Asked(c, oks, |oks|, ids) by {
      if !Rejects(c) {
        forall j | 0 <= j < |oks| && Frees(c, oks, j, ids) ensures j == k {
        }
      }
    }
    forall e ensures !OwnedUnder(Completed(c, oks), e, ids) {
      NothingCommits(c, MatchOf(c, k), e);
    }
    LeftBehind(Completed(c, oks), ids);
  }

  /**
   * The exact condition for every provisional rule set to end owned by one stored active
   * bearer or removed once, under every pattern of SGW-U outcomes: a well-behaved response,
   * and a session bound to its SGW-U whenever a removal is due.
   */
  lemma SettledIffWellBehaved(c: Procedure)
    requires Valid(c)
    ensures (forall oks :: |oks| == |c.contexts| ==> AllSettled(c, oks)) <==> WellBehaved(c) && Removable(c)
  {
    hide AllSettled, MatchOf, Acceptable, Removable;
    if WellBehaved(c) && Removable(c) {
      forall oks | |oks| == |c.contexts| ensures AllSettled(c, oks) {
        WellBehavedSettles(c, oks);
      }
    } else {
      SomeUnsettled(c);
      assert !AllSettled(c, AllTrue(|c.contexts|)) || !AllSettled(c, AllFalse(|c.contexts|));
    }
  }

  lemma SomeUnsettled(c: Procedure)
    requires Valid(c) && !(WellBehaved(c) && Removable(c))
    ensures !AllSettled(c, AllTrue(|c.contexts|)) || !AllSettled(c, AllFalse(|c.contexts|))
  {
    hide AllSettled, MatchOf, Acceptable;
    if !Removable(c) && (Rejects(c) || Paired(c)) {
      UnboundIsLost(c);
    } else if Rejects(c) {
      var k :| 0 <= k < |c.contexts| && Acceptable(c, k);
      var last := LastAcceptable(c, k);
      RejectedYetCommitted(c, last);
    } else if !Paired(c) {
      UnpairedIsLost(c);
    } else {
      var j, k :| 0 <= j < k < |c.contexts| && Acceptable(c, j) && Acceptable(c, k) && c.contexts[j].ebi == c.contexts[k].ebi;
      OverwrittenIsLost(c, j, k);
    }
  }

  /** The simplest loss: one accepted context for a session whose binding was cleared while the MME was asked. */
  lemma UnboundCompletionLoses(p: Provision, ctx: Context, at: int)
    requires ctx.cause == ACCEPTED && !ctx.bound && !ctx.removable
    ensures var c := Procedure([p], [ctx], ACCEPTED, false, map[], at);
            var o := Completed(c, [true]);
            && Valid(c) && WellBehaved(c)
            && o.rolledBack == {p.ids} && o.removals == [] && o.bearers == map[]
  {
    var c := Procedure([p], [ctx], ACCEPTED, false, map[], at);
    assert After(c, [true], 0) == Outcome(map[], {}, [], []);
    assert MatchOf(c, 0) == 0;
    assert After(c, [true], 1) == Complete1(c, [true], After(c, [true], 0), 0);
  }

  // ---- Earlier bearers --------------------------------------------------------

  /**
   * Exactly when every bearer the session had before keeps its place, whatever the SGW-U
   * answers: no acceptable context names an EBI in use. Otherwise that bearer is replaced and
   * its rules are left without an owner.
   */
  lemma EarlierBearersStayIff(c: Procedure)
    requires Valid(c)
    ensures (forall oks, e :: |oks| == |c.contexts| && e in c.bearers ==>
               e in Completed(c, oks).bearers && Completed(c, oks).bearers[e] == c.bearers[e]) <==>
            forall k :: 0 <= k < |c.contexts| && Acceptable(c, k) ==> c.contexts[k].ebi !in c.bearers
  {
    hide After, MatchOf, LastCommit, NewBearer, Acceptable, Owns;
    if forall k :: 0 <= k < |c.contexts| && Acceptable(c, k) ==> c.contexts[k].ebi !in c.bearers {
      forall oks, e | |oks| == |c.contexts| && e in c.bearers
        ensures e in Completed(c, oks).bearers && Completed(c, oks).bearers[e] == c.bearers[e]
      {
        BearersAfter(c, oks, |oks|, e);
        LastCommitIsLast(c, oks, |oks|, e);
      }
    } else {
      var k :| 0 <= k < |c.contexts| && Acceptable(c, k) && c.contexts[k].ebi in c.bearers;
      var oks, e := AllTrue(|c.contexts|), c.contexts[k].ebi;
      BearersAfter(c, oks, |oks|, e);
      LastCommitIsLast(c, oks, |oks|, e);
      var j := LastCommit(c, oks, |oks|, e).value;
      NewBearerOwns(c, MatchOf(c, j), c.contexts[j], MatchOf(c, j));
      assert Completed(c, oks).bearers[e] != c.bearers[e];
    }
  }

  // ---- The cause sent to the PGW ----------------------------------------------

  function Successes(causes: seq<byte>): nat {
    if causes == [] then 0
    else Successes(causes[..|causes| - 1]) + if causes[|causes| - 1] == ACCEPTED then 1 else 0
  }

  /** The first nonzero cause among the failed contexts, or zero. */
  function FirstFailure(causes: seq<byte>): byte {
    if causes == [] then 0
    else
      var before := FirstFailure(causes[..|causes| - 1]);
      if before == 0 && causes[|causes| - 1] != ACCEPTED then causes[|causes| - 1] else before
  }

  function OutCause(msgCause: byte, causes: seq<byte>): byte {
    if Successes(causes) == |causes| then msgCause
    else if Successes(causes) > 0 then PARTIAL
    else if FirstFailure(causes) != 0 then FirstFailure(causes)
    else msgCause
  }

  lemma {:induction false} CountSuccesses(causes: seq<byte>)
    ensures Successes(causes) <= |causes|
    ensures Successes(causes) == |causes| <==> forall k :: 0 <= k < |causes| ==> causes[k] == ACCEPTED
    ensures Successes(causes) == 0 <==> forall k :: 0 <= k < |causes| ==> causes[k] != ACCEPTED
    ensures FirstFailure(causes) == 0 <==> forall k :: 0 <= k < |causes| ==> causes[k] in {0, ACCEPTED}
    ensures FirstFailure(causes) != 0 ==>
              exists k :: 0 <= k < |causes| && causes[k] == FirstFailure(causes) != ACCEPTED &&
                          forall j :: 0 <= j < k ==> causes[j] in {0, ACCEPTED}
  {
    if causes != [] {
      var before, last := causes[..|causes| - 1], causes[|causes| - 1];
      CountSuccesses(before);
      if FirstFailure(before) != 0 {
        var k :| 0 <= k < |before| && before[k] == FirstFailure(before) != ACCEPTED &&
                 forall j :: 0 <= j < k ==> before[j] in {0, ACCEPTED};
        assert causes[k] == FirstFailure(causes);
      }
    }
  }

  lemma {:induction false} CausesAfter(c: Procedure, oks: seq<bool>, k: nat)
    requires |c.contexts| == |c.provs| && k <= |c.contexts| == |oks|
    ensures |After(c, oks, k).causes| == k
    ensures forall j :: 0 <= j < k ==> After(c, oks, k).causes[j] == FinalCause(c, oks, j)
  {
    hide MatchOf, NewBearer, FinalCause, Commits;
    if k == 0 {
      RollBackAllMarks(Outcome(c.bearers, {}, [], []), c.provs, c.removable);
    } else {
      CausesAfter(c, oks, k - 1);
    }
  }

  /**
   * The PGW gets the MME's own cause, Partial, or the first failing context's nonzero cause, as
   * all, some or none of the contexts succeed; an accepted context that failed here counts as a
   * system failure. When none succeeds and no cause is nonzero, the PGW gets the MME's own one.
   */
  lemma OutCauseTellsOutcome(c: Procedure, oks: seq<bool>)
    requires |c.contexts| == |c.provs| == |oks| > 0
    ensures var out := OutCause(c.cause, Completed(c, oks).causes);
            && ((forall k :: 0 <= k < |oks| ==> Commits(c, oks, k)) ==> out == c.cause)
            && ((exists k :: 0 <= k < |oks| && Commits(c, oks, k)) && (exists k :: 0 <= k < |oks| && !Commits(c, oks, k)) ==>
                 out == PARTIAL)
            && ((forall k :: 0 <= k < |oks| ==> !Commits(c, oks, k)) ==>
                 if forall k :: 0 <= k < |oks| ==> c.contexts[k].cause == 0 then out == c.cause
                 else exists k :: 0 <= k < |oks| && c.contexts[k].cause != 0 &&
                                  out == (if c.contexts[k].cause == ACCEPTED then SYSTEM_FAILURE else c.contexts[k].cause) &&
                                  forall j :: 0 <= j < k ==> c.contexts[j].cause == 0)
  {
    hide After, Acceptable;
    var causes := Completed(c, oks).causes;
    CausesAfter(c, oks, |oks|);
    CountSuccesses(causes);
    hide Successes, FirstFailure;
    forall k | 0 <= k < |oks| ensures causes[k] == ACCEPTED <==> Commits(c, oks, k) {
      CommitsIffAccepted(c, oks, k);
    }
    forall k | 0 <= k < |oks| ensures causes[k] == 0 <==> c.contexts[k].cause == 0 {
    }
  }

  lemma CommitsIffAccepted(c: Procedure, oks: seq<bool>, k: nat)
    requires k < |c.contexts| == |oks|
    ensures FinalCause(c, oks, k) == ACCEPTED <==> Commits(c, oks, k)
  {
  }

  /** The reply claims acceptance when it should not, exactly in that case. */
  lemma AcceptedIffAllOrCauseless(c: Procedure, oks: seq<bool>)
    requires |c.contexts| == |c.provs| == |oks| > 0 && c.cause == ACCEPTED
    ensures OutCause(c.cause, Completed(c, oks).causes) == ACCEPTED <==>
            (forall k :: 0 <= k < |oks| ==> Commits(c, oks, k)) || (forall k :: 0 <= k < |oks| ==> c.contexts[k].cause == 0)
  {
    hide Completed, OutCause, FinalCause;
    OutCauseTellsOutcome(c, oks);
    if forall k :: 0 <= k < |oks| ==> c.contexts[k].cause == 0 {
      assert forall k :: 0 <= k < |oks| ==> !Commits(c, oks, k);
    }
  }

  // ---- The handler ------------------------------------------------------------

  class Completion {
    var bearers: map<byte, Bearer>
    var rolledBack: set<RuleIds>
    var removals: seq<RuleIds>

    ghost predicate Is(o: Outcome)
      reads this
    {
      bearers == o.bearers && rolledBack == o.rolledBack && removals == o.removals
    }

    constructor (bearers: map<byte, Bearer>)
      ensures Is(Outcome(bearers, {}, [], []))
    {
      this.bearers, rolledBack, removals := bearers, {}, [];
    }

    /** Marks first; an unbound session sends the SGW-U nothing. */
    method RemoveProvisioning(ids: RuleIds, bound: bool, ghost o: Outcome)
      requires Is(o)
      modifies this
      ensures Is(RollBack(o, ids, bound))
    {
      if ids in rolledBack {
        return;
      }
      rolledBack := rolledBack + {ids};
      if !bound {
        return;
      }
      removals := removals + [ids];
    }

    /** Marks every rule set, then asks for the newly marked ones in one request, if bound. */
    method RemoveAllProvisioning(provs: seq<Provision>, bound: bool, ghost o: Outcome)
      requires Is(o)
      modifies this
      ensures Is(RollBackAll(o, provs, bound))
    {
      var marked: seq<RuleIds> := [];
      for i := 0 to |provs|
        invariant bearers == o.bearers && removals == o.removals
        invariant rolledBack == RollBackAll(o, provs[..i], bound).rolledBack && bearers == RollBackAll(o, provs[..i], bound).bearers
        invariant RollBackAll(o, provs[..i], bound).removals == o.removals + if bound then marked else []
      {
        assert provs[..i + 1][..i] == provs[..i];
        if provs[i].ids !in rolledBack {
          rolledBack := rolledBack + {provs[i].ids};
          marked := marked + [provs[i].ids];
        }
      }
      assert provs[..|provs|] == provs;
      if marked == [] || !bound {
        return;
      }
      removals := removals + marked;
    }

    method FindMatch(c: Procedure, k: nat) returns (i: nat)
      requires |c.contexts| == |c.provs| && k < |c.contexts|
      ensures i == MatchOf(c, k) && SpeaksOf(c, k, i)
    {
      hide SpeaksOf;
      MatchIsSpoken(c, k);
      i := k;
      if c.contexts[k].echoed.Some? {
        var teid := c.contexts[k].echoed.value;
        for j := 0 to |c.provs|
          invariant FirstWith(c.provs, teid, 0) == FirstWith(c.provs, teid, j)
        {
          if c.provs[j].sgwS1U.teid == teid {
            return j;
          }
        }
      }
    }

    /** One context: commits its rule set to a bearer, or rolls it back. */
    method CompleteContext(c: Procedure, oks: seq<bool>, k: nat, ghost o: Outcome) returns (cause: byte)
      requires |c.contexts| == |c.provs| && k < |c.contexts| == |oks|
      requires Is(o)
      modifies this
      ensures Is(Complete1(c, oks, o, k)) && cause == FinalCause(c, oks, k)
    {
      hide RollBack, NewBearer, MatchOf;
      var reject := c.cause != ACCEPTED && c.cause != PARTIAL;
      var ctx := c.contexts[k];
      var i := FindMatch(c, k);
      var cleaned := false;
      cause := ctx.cause;
      if cause == ACCEPTED && ctx.enb.teid != 0 && ctx.bound {
        if oks[k] {
          bearers := bearers[ctx.ebi := NewBearer(c.provs[i], ctx, c.at)];
        } else {
          RemoveProvisioning(c.provs[i].ids, ctx.removable, o);
          cleaned, cause := true, SYSTEM_FAILURE;
        }
      } else if cause == ACCEPTED {
        RemoveProvisioning(c.provs[i].ids, ctx.removable, o);
        cleaned, cause := true, SYSTEM_FAILURE;
      }
      if cause != ACCEPTED && !cleaned && !reject {
        RemoveProvisioning(c.provs[i].ids, ctx.removable, o);
      }
    }

    /** Takes the contexts in order; oks are the SGW-U's answers to the endpoint updates. */
    method CompleteFromResponse(c: Procedure, oks: seq<bool>) returns (out: byte, causes: seq<byte>)
      requires |c.contexts| == |c.provs| && |oks| == |c.contexts|
      requires Is(Outcome(c.bearers, {}, [], []))
      modifies this
      ensures Is(Completed(c, oks)) && causes == Completed(c, oks).causes
      ensures out == OutCause(c.cause, causes)
    {
      hide After, RollBackAll, Complete1, FinalCause;
      if c.cause != ACCEPTED && c.cause != PARTIAL {
        RemoveAllProvisioning(c.provs, c.removable, Outcome(c.bearers, {}, [], []));
      }
      causes := [];
      var accepted, failed, firstFailure := 0, 0, 0;
      AfterStart(c, oks);
      for k := 0 to |c.contexts|
        invariant Is(After(c, oks, k)) && causes == After(c, oks, k).causes && |causes| == k
        invariant accepted == Successes(causes) && failed == k - accepted && firstFailure == FirstFailure(causes)
      {
        AfterNext(c, oks, k);
        var cause := CompleteContext(c, oks, k, After(c, oks, k));
        CausesGrow(c, oks, After(c, oks, k), k);
        ghost var before := causes;
        causes := causes + [cause];
        assert causes[..k] == before;
        if cause == ACCEPTED {
          accepted := accepted + 1;
        } else {
          failed := failed + 1;
          if firstFailure == 0 {
            firstFailure := cause;
          }
        }
      }
      out := c.cause;
      if failed > 0 {
        if accepted > 0 {
          out := PARTIAL;
        } else if firstFailure != 0 {
          out := firstFailure;
        }
      }
    }
  }

  lemma AfterStart(c: Procedure, oks: seq<bool>)
    requires |c.contexts| == |c.provs| && |oks| == |c.contexts|
    ensures var o := Outcome(c.bearers, {}, [], []);
            After(c, oks, 0) == (if Rejects(c) then RollBackAll(o, c.provs, c.removable) else o) && After(c, oks, 0).causes == []
  {
    RollBackAllMarks(Outcome(c.bearers, {}, [], []), c.provs, c.removable);
  }

  lemma CausesGrow(c: Procedure, oks: seq<bool>, o: Outcome, k: nat)
    requires |c.contexts| == |c.provs| && k < |c.contexts| == |oks|
    ensures Complete1(c, oks, o, k).causes == o.causes + [FinalCause(c, oks, k)]
  {
    hide NewBearer, MatchOf;
  }

  lemma AfterNext(c: Procedure, oks: seq<bool>, k: nat)
    requires |c.contexts| == |c.provs| && k < |c.contexts| == |oks|
    ensures After(c, oks, k + 1) == Complete1(c, oks, After(c, oks, k), k)
  {
  }
}
