/** Concurrent-procedure control for one PDN session (internal/sgwc/collision/collision.go). */
module Collision {
  import opened Wrappers

  datatype Mode = Unset | Strict | Permissive | OtherMode(name: string)

  datatype Procedure =
    | CreateSession
    | ModifyBearer
    | DeleteSession
    | ReleaseAccessBearers
    | CreateBearer
    | CreateBearerResponse
    | UpdateBearer
    | DeleteBearer
    | OtherProcedure(name: string)

  datatype Owner = MME | PGW | SGW

  datatype Request = Request(
    procedure: Procedure, owner: Owner, peer: string, teid: nat, seqNo: nat, ebis: seq<nat>)

  datatype ActiveProcedure = ActiveProcedure(id: nat, request: Request, startedAt: int, updatedAt: int)

  datatype Policy = NoPolicy | AllowResponse | SessionOverlap | BearerOverlap | BearerDisjoint | BearerUnknown

  datatype Verdict = Allow(policy: Policy) | RejectNew(policy: Policy)

  /** Times are nanoseconds. */
  const DEFAULT_TIMEOUT: int := 120_000_000_000
  const ID_SPACE: nat := 0x1_0000_0000_0000_0000

  // ---- Pairwise policy --------------------------------------------------------

  predicate IsBearerScoped(p: Procedure) {
    p.ModifyBearer? || p.CreateBearer? || p.CreateBearerResponse? || p.UpdateBearer? || p.DeleteBearer?
  }

  predicate IsSessionWide(p: Procedure) {
    p.CreateSession? || p.DeleteSession? || p.ReleaseAccessBearers?
  }

  function PairRule(active: Procedure, next: Procedure): Option<Policy> {
    match (active, next)
    case (CreateBearer, CreateBearerResponse) => Some(AllowResponse)
    case (CreateBearerResponse, CreateBearer) => Some(AllowResponse)
    case (ModifyBearer, DeleteSession) => Some(NoPolicy)
    case (CreateBearer, DeleteSession) => Some(NoPolicy)
    case (CreateBearerResponse, DeleteSession) => Some(NoPolicy)
    case (UpdateBearer, DeleteSession) => Some(NoPolicy)
    case (DeleteBearer, DeleteSession) => Some(NoPolicy)
    case (DeleteBearer, ReleaseAccessBearers) => Some(NoPolicy)
    case (ReleaseAccessBearers, DeleteBearer) => Some(NoPolicy)
    case (UpdateBearer, ReleaseAccessBearers) => Some(NoPolicy)
    case (ReleaseAccessBearers, UpdateBearer) => Some(NoPolicy)
    case _ => None
  }

  function PairPolicy(active: Procedure, next: Procedure): Policy {
    match PairRule(active, next)
    case Some(policy) => policy
    case None =>
      if IsSessionWide(active) || IsSessionWide(next) then SessionOverlap
      else if IsBearerScoped(active) && IsBearerScoped(next) then BearerOverlap
      else SessionOverlap
  }

  predicate OverlapsEBI(a: seq<nat>, b: seq<nat>) {
    exists x :: x in a && x in b
  }

  function Decide(mode: Mode, current: Request, req: Request): Verdict {
    match PairPolicy(current.procedure, req.procedure)
    case AllowResponse => Allow(AllowResponse)
    case SessionOverlap => RejectNew(SessionOverlap)
    case BearerOverlap =>
      if current.ebis == [] || req.ebis == [] then
        if mode == Permissive then Allow(BearerUnknown) else RejectNew(BearerOverlap)
      else if OverlapsEBI(current.ebis, req.ebis) then RejectNew(BearerOverlap)
      else Allow(BearerDisjoint)
    case _ => Allow(NoPolicy)
  }

  predicate Allowed(mode: Mode, current: Request, req: Request) {
    Decide(mode, current, req).Allow?
  }

  /**
   * Exactly which procedure may start beside an active one: a Create Bearer beside its own
   * response, a Delete Session over any bearer procedure, a Release Access Bearers beside an
   * Update or Delete Bearer, and bearer procedures with disjoint EBIs. Unknown EBIs pass in
   * permissive mode only.
   */
  lemma AllowedIff(mode: Mode, current: Request, req: Request)
    ensures var bearer := {ModifyBearer, CreateBearer, CreateBearerResponse, UpdateBearer, DeleteBearer};
            var a, n := current.procedure, req.procedure;
            Allowed(mode, current, req) <==>
            || (a == CreateBearer && n == CreateBearerResponse) || (a == CreateBearerResponse && n == CreateBearer)
            || (a in bearer && n == DeleteSession)
            || (a == ReleaseAccessBearers && n in {UpdateBearer, DeleteBearer})
            || (a in {UpdateBearer, DeleteBearer} && n == ReleaseAccessBearers)
            || (a in bearer && n in bearer &&
                if current.ebis == [] || req.ebis == [] then mode == Permissive
                else forall e :: e in current.ebis ==> e !in req.ebis)
  {
  }

  // ---- Tracker transitions ----------------------------------------------------

  datatype TrackerState = TrackerState(
    nextID: nat, timeout: int, mode: Mode, active: map<nat, ActiveProcedure>)

  datatype Event =
    | Begin(req: Request, now: int)
    | Finish(id: nat)
    | Sweep(now: int)
    | Configure(mode: Mode, timeout: int)

  const INITIAL: TrackerState := TrackerState(0, DEFAULT_TIMEOUT, Strict, map[])

  function PositiveTimeout(timeout: int): int {
    if timeout <= 0 then DEFAULT_TIMEOUT else timeout
  }

  function StrictUnlessSet(mode: Mode): Mode {
    if mode == Unset then Strict else mode
  }

  function Unexpired(active: map<nat, ActiveProcedure>, timeout: int, now: int): map<nat, ActiveProcedure> {
    map id | id in active && now - active[id].updatedAt <= timeout :: active[id]
  }

  function SweepStep(s: TrackerState, now: int): TrackerState {
    var timeout := PositiveTimeout(s.timeout);
    s.(timeout := timeout, active := Unexpired(s.active, timeout, now))
  }

  predicate Admits(s: TrackerState, req: Request) {
    forall id :: id in s.active ==> Allowed(s.mode, s.active[id].request, req)
  }

  function BeginStep(s: TrackerState, req: Request, now: int): TrackerState {
    var swept := SweepStep(s.(mode := StrictUnlessSet(s.mode)), now);
    if Admits(swept, req) then
      var id := (swept.nextID + 1) % ID_SPACE;
      swept.(nextID := id, active := swept.active[id := ActiveProcedure(id, req, now, now)])
    else swept
  }

  function FinishStep(s: TrackerState, id: nat): TrackerState {
    if id == 0 then s else s.(active := s.active - {id})
  }

  function ConfigureStep(s: TrackerState, mode: Mode, timeout: int): TrackerState {
    s.(mode := StrictUnlessSet(mode), timeout := PositiveTimeout(timeout))
  }

  function Step(s: TrackerState, e: Event): TrackerState {
    match e
    case Begin(req, now) => BeginStep(s, req, now)
    case Finish(id) => FinishStep(s, id)
    case Sweep(now) => SweepStep(s, now)
    case Configure(mode, timeout) => ConfigureStep(s, mode, timeout)
  }

  function Run(es: seq<Event>): TrackerState {
    if es == [] then INITIAL else Step(Run(es[..|es| - 1]), es[|es| - 1])
  }

  /**
   * Who is still live when a request or a sweep comes: exactly those updated within the
   * timeout, two minutes unless set, and they are as they were; a finished one is gone.
   */
  lemma LiveIff(s: TrackerState, req: Request, now: int, id: nat)
    requires id != (s.nextID + 1) % ID_SPACE
    ensures var timeout := if s.timeout <= 0 then 120_000_000_000 else s.timeout;
            var live := id in s.active && now - s.active[id].updatedAt <= timeout;
            && (id in BeginStep(s, req, now).active <==> live) && (id in SweepStep(s, now).active <==> live)
            && (live ==> BeginStep(s, req, now).active[id] == s.active[id] == SweepStep(s, now).active[id])
    ensures id in FinishStep(s, id).active <==> id in s.active && id == 0
    ensures forall x :: x in FinishStep(s, id).active ==> x in s.active && FinishStep(s, id).active[x] == s.active[x]
    ensures forall x :: x in s.active && x != id ==> x in FinishStep(s, id).active
  {
  }

  /** A request starts a procedure under the next identifier exactly when the mode set allows it beside every live one. */
  lemma StartsIff(s: TrackerState, req: Request, now: int, mode: Mode, timeout: int)
    ensures var t, id, mode := BeginStep(s, req, now), (s.nextID + 1) % ID_SPACE, s.mode;
            var limit := if s.timeout <= 0 then 120_000_000_000 else s.timeout;
            if forall x :: x in s.active && now - s.active[x].updatedAt <= limit ==> Allowed(mode, s.active[x].request, req)
            then t.nextID == id && id in t.active && t.active[id] == ActiveProcedure(id, req, now, now)
            else t.nextID == s.nextID && forall x :: x in t.active ==> x in s.active && t.active[x] == s.active[x]
    ensures ConfigureStep(s, mode, timeout).mode == Permissive <==> mode == Permissive
    ensures ConfigureStep(s, mode, timeout).active == s.active
  {
    hide Allowed;
    forall x | x in s.active
      ensures Allowed(StrictUnlessSet(s.mode), s.active[x].request, req) <==> Allowed(s.mode, s.active[x].request, req)
    {
      UnsetIsStrict(s.mode, s.active[x].request, req);
    }
    var swept := SweepStep(s.(mode := StrictUnlessSet(s.mode)), now);
    assert forall x :: x in swept.active <==> x in s.active && now - s.active[x].updatedAt <= swept.timeout;
    assert forall x :: x in swept.active ==> swept.active[x] == s.active[x];
  }

  lemma UnsetIsStrict(mode: Mode, current: Request, req: Request)
    ensures Allowed(StrictUnlessSet(mode), current, req) <==> Allowed(mode, current, req)
  {
  }

  // ---- Properties of every run ------------------------------------------------

  /** Every two live procedures were admitted in ID order under the given policy. */
  predicate PairsAllowed(s: TrackerState, mode: Mode) {
    forall i, j :: i in s.active && j in s.active && i < j ==>
      Allowed(mode, s.active[i].request, s.active[j].request)
  }

  predicate IDsIssued(s: TrackerState) {
    forall i :: i in s.active ==> 0 < i <= s.nextID && s.active[i].id == i
  }

  predicate NeverPermissive(es: seq<Event>) {
    forall k :: 0 <= k < |es| ==> !(es[k].Configure? && es[k].mode == Permissive)
  }

  lemma StrictImpliesPermissive(mode: Mode, current: Request, req: Request)
    requires Allowed(mode, current, req)
    ensures Allowed(Permissive, current, req)
  {
  }

  lemma DecideIgnoresModeName(mode: Mode, current: Request, req: Request)
    requires mode != Permissive
    ensures Decide(mode, current, req) == Decide(Strict, current, req)
  {
  }

  /** The pairwise law survives one step under any policy no stricter than the tracker's own. */
  lemma StepKeepsPairs(s: TrackerState, e: Event, mode: Mode)
    requires PairsAllowed(s, mode) && IDsIssued(s) && s.nextID + 1 < ID_SPACE
    requires mode == Permissive || (mode == Strict && s.mode != Permissive)
    ensures PairsAllowed(Step(s, e), mode) && IDsIssued(Step(s, e))
    ensures Step(s, e).nextID <= s.nextID + 1
  {
    if e.Begin? {
      var swept := SweepStep(s.(mode := StrictUnlessSet(s.mode)), e.now);
      var t := BeginStep(s, e.req, e.now);
      if Admits(swept, e.req) {
        assert t.nextID == s.nextID + 1;
        forall i | i in t.active && i < t.nextID
          ensures Allowed(mode, t.active[i].request, e.req)
        {
          assert Allowed(swept.mode, swept.active[i].request, e.req);
          if mode == Permissive {
            StrictImpliesPermissive(swept.mode, swept.active[i].request, e.req);
          } else {
            DecideIgnoresModeName(swept.mode, swept.active[i].request, e.req);
          }
        }
      }
    }
  }

  /**
   * Main result: after any run, live procedures are pairwise compatible under the
   * permissive policy, and under the strict policy when permissive mode was never set.
   * The bound is the width of the 64-bit ID counter.
   */
  lemma {:induction false} RunKeepsPairs(es: seq<Event>)
    requires |es| < ID_SPACE
    ensures var s := Run(es);
            PairsAllowed(s, Permissive) && IDsIssued(s) && s.nextID <= |es|
    ensures NeverPermissive(es) ==> PairsAllowed(Run(es), Strict) && Run(es).mode != Permissive
  {
    if es != [] {
      var prefix, e := es[..|es| - 1], es[|es| - 1];
      RunKeepsPairs(prefix);
      StepKeepsPairs(Run(prefix), e, Permissive);
      if NeverPermissive(es) {
        assert forall k :: 0 <= k < |prefix| ==> prefix[k] == es[k];
        StepKeepsPairs(Run(prefix), e, Strict);
      }
    }
  }

  predicate Exempt(p: Procedure, q: Procedure) {
    (p.CreateBearer? && q.CreateBearerResponse?) || (p.CreateBearerResponse? && q.CreateBearer?)
  }

  /** Strict mode: two live bearer procedures have known, disjoint EBI sets unless they are request and response. */
  lemma StrictBearersDisjoint(es: seq<Event>, i: nat, j: nat)
    requires |es| < ID_SPACE && NeverPermissive(es)
    requires i in Run(es).active && j in Run(es).active && i != j
    requires IsBearerScoped(Run(es).active[i].request.procedure)
    requires IsBearerScoped(Run(es).active[j].request.procedure)
    requires !Exempt(Run(es).active[i].request.procedure, Run(es).active[j].request.procedure)
    ensures var a, b := Run(es).active[i].request.ebis, Run(es).active[j].request.ebis;
            a != [] && b != [] && !OverlapsEBI(a, b)
  {
    RunKeepsPairs(es);
    var s := Run(es);
    hide Run, Allowed;
    if i < j {
      StrictBearerPair(s.active[i].request, s.active[j].request);
    } else {
      StrictBearerPair(s.active[j].request, s.active[i].request);
    }
  }

  lemma StrictBearerPair(current: Request, req: Request)
    requires Allowed(Strict, current, req)
    requires IsBearerScoped(current.procedure) && IsBearerScoped(req.procedure)
    requires !Exempt(current.procedure, req.procedure)
    ensures current.ebis != [] && req.ebis != []
    ensures !OverlapsEBI(current.ebis, req.ebis) && !OverlapsEBI(req.ebis, current.ebis)
  {
    assert PairPolicy(current.procedure, req.procedure) == BearerOverlap;
  }

  /** In either mode a live Delete Session is the newest entry: nothing starts behind it. */
  lemma DeleteSessionIsNewest(es: seq<Event>, i: nat, j: nat)
    requires |es| < ID_SPACE
    requires i in Run(es).active && j in Run(es).active
    requires Run(es).active[i].request.procedure == DeleteSession
    ensures j <= i
  {
    RunKeepsPairs(es);
    NothingFollowsDeleteSession(Run(es).active[i].request, Run(es).active[j].request);
  }

  lemma NothingFollowsDeleteSession(current: Request, req: Request)
    requires current.procedure == DeleteSession
    ensures !Allowed(Permissive, current, req)
  {
  }

  // ---- The tracker object -----------------------------------------------------

  datatype Outcome = Admitted(proc: ActiveProcedure) | Rejected(current: ActiveProcedure, policy: Policy)

  class Tracker {
    var nextID: nat
    var timeout: int
    var mode: Mode
    var active: map<nat, ActiveProcedure>

    function State(): TrackerState
      reads this
    {
      TrackerState(nextID, timeout, mode, active)
    }

    constructor (timeout: int)
      ensures State() == INITIAL.(timeout := PositiveTimeout(timeout))
    {
      nextID := 0;
      this.timeout := PositiveTimeout(timeout);
      mode := Strict;
      active := map[];
    }

    method Configure(mode: Mode, timeout: int)
      modifies this
      ensures State() == ConfigureStep(old(State()), mode, timeout)
      ensures this.mode == (if mode == Unset then Strict else mode) && nextID == old(nextID) && active == old(active)
      ensures this.timeout == if timeout <= 0 then 120_000_000_000 else timeout
    {
      this.mode := StrictUnlessSet(mode);
      this.timeout := PositiveTimeout(timeout);
    }

    /** Map iteration order is arbitrary; entries are deleted while iterating. */
    method SweepExpiredLocked(now: int) returns (expired: nat)
      modifies this`active
      ensures active == Unexpired(old(active), timeout, now)
      ensures expired == |old(active)| - |active|
    {
      expired := 0;
      var ids := active.Keys;
      while ids != {}
        invariant ids <= active.Keys <= old(active).Keys
        invariant forall id :: id in active ==> active[id] == old(active)[id]
        invariant forall id :: id in old(active) && id !in ids ==>
          (id in active <==> now - old(active)[id].updatedAt <= timeout)
        invariant expired == |old(active)| - |active|
        decreases ids
      {
        var id :| id in ids;
        ids := ids - {id};
        if now - active[id].updatedAt > timeout {
          assert active.Keys - {id} == (active - {id}).Keys;
          active := active - {id};
          expired := expired + 1;
        }
      }
      assert active == Unexpired(old(active), timeout, now);
    }

    method SweepExpired(now: int) returns (expired: nat)
      modifies this
      ensures State() == SweepStep(old(State()), now)
      ensures expired == |old(active)| - |active|
    {
      timeout := PositiveTimeout(timeout);
      expired := SweepExpiredLocked(now);
    }

    /**
     * The first rejecting entry met in map order is reported, but whether the request is
     * admitted does not depend on that order.
     */
    method Begin(req: Request, now: int) returns (r: Outcome)
      modifies this
      ensures State() == BeginStep(old(State()), req, now)
      ensures r.Admitted? ==> r.proc == ActiveProcedure(nextID, req, now, now)
      ensures r.Admitted? ==> nextID in active && active[nextID] == r.proc
      ensures r.Rejected? ==> r.current in active.Values
      ensures r.Rejected? ==> Decide(mode, r.current.request, req) == RejectNew(r.policy)
      ensures r.Admitted? <==> Admits(SweepStep(old(State()).(mode := StrictUnlessSet(old(mode))), now), req)
    {
      timeout := PositiveTimeout(timeout);
      mode := StrictUnlessSet(mode);
      var _ := SweepExpiredLocked(now);
      ghost var swept := State();
      var ids := active.Keys;
      while ids != {}
        invariant State() == swept
        invariant ids <= active.Keys
        invariant forall id :: id in active && id !in ids ==> Allowed(mode, active[id].request, req)
        decreases ids
      {
        var id :| id in ids;
        ids := ids - {id};
        match Decide(mode, active[id].request, req) {
          case RejectNew(policy) =>
            assert !Allowed(swept.mode, swept.active[id].request, req);
            return Rejected(active[id], policy);
          case Allow(_) =>
        }
      }
      assert Admits(swept, req);
      nextID := (nextID + 1) % ID_SPACE;
      var proc := ActiveProcedure(nextID, req, now, now);
      active := active[nextID := proc];
      return Admitted(proc);
    }

    method Finish(id: nat)
      modifies this
      ensures State() == FinishStep(old(State()), id)
    {
      if id != 0 {
        active := active - {id};
      }
    }
  }

  /** The nested scan of overlapsEBI. */
  method OverlapsEBIScan(a: seq<nat>, b: seq<nat>) returns (r: bool)
    ensures r == OverlapsEBI(a, b)
  {
    for i := 0 to |a|
      invariant forall x :: x in a[..i] ==> x !in b
    {
      for j := 0 to |b|
        invariant a[i] !in b[..j]
      {
        if a[i] == b[j] {
          assert a[i] in a && a[i] in b;
          return true;
        }
      }
      assert b[..|b|] == b;
    }
    assert a[..|a|] == a;
    return false;
  }
}
