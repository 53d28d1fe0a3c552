/**
 * The rule compiler of the SGW-U (internal/dataplane/bpf/compiler.go): the PDRs and FARs of
 * PFCP sessions become entries of one forwarding map keyed by TEID and ingress interface,
 * which every session edits in place (TS 29.244 section 8.2.26).
 */
module RuleCompiler {
  import opened Wrappers
  import opened Bytes
  import opened Addresses

  const UNSPECIFIED: IPv4 := [0, 0, 0, 0]

  const ACCESS: byte := 0
  const CORE: byte := 1

  const FORWARD: byte := 1
  const DROP: byte := 2
  const PUNT: byte := 3

  datatype PDR = PDR(id: u16, sourceInterface: byte, localTEID: u32, farID: u32, qosValid: bool, ebi: byte, qci: byte)

  /** The outer address is absent until the peer's endpoint is known. */
  datatype FAR = FAR(id: u32, applyAction: byte, outerIP: Option<IPv4>, outerTEID: u32, releasedAccess: bool)

  datatype Session = Session(pdrs: seq<PDR>, fars: seq<FAR>)

  datatype QCIMarking = QCIMarking(enabled: bool, overrideDefault: bool, defaultDSCP: byte, qciToDSCP: map<byte, byte>)

  datatype Config = Config(s1uIfindex: u32, s5uIfindex: u32, s1uLocalIP: IPv4, s5uLocalIP: IPv4, qos: QCIMarking)

  datatype Key = Key(teid: u32, ifindex: u32)

  datatype Value = Value(
    action: byte, ebi: byte, qci: byte, qosValid: bool, egress: u32,
    outerSrc: IPv4, outerDst: IPv4, newTEID: u32, counterId: u32, outerDSCP: byte)

  type Rules = map<Key, Value>

  // ---- One PDR ----------------------------------------------------------------

  function BuildKey(cfg: Config, pdr: PDR): Option<Key> {
    if pdr.sourceInterface == ACCESS then Some(Key(pdr.localTEID, cfg.s1uIfindex))
    else if pdr.sourceInterface == CORE then Some(Key(pdr.localTEID, cfg.s5uIfindex))
    else None
  }

  /** The last FAR listed under an identifier. */
  function FarByID(fars: seq<FAR>, id: u32): Option<FAR> {
    if fars == [] then None
    else if fars[|fars| - 1].id == id then Some(fars[|fars| - 1])
    else FarByID(fars[..|fars| - 1], id)
  }

  function Empty(pdr: PDR, action: byte): Value {
    Value(action, 0, 0, false, 0, UNSPECIFIED, UNSPECIFIED, 0, pdr.localTEID, 0)
  }

  /** The DSCP a PDR's bearer asks for, when QCI marking applies to it. */
  function BearerDSCP(qos: QCIMarking, pdr: PDR): Option<byte> {
    if !qos.enabled || !qos.overrideDefault || !pdr.qosValid || pdr.qci == 0 then None
    else if pdr.qci in qos.qciToDSCP then Some(qos.qciToDSCP[pdr.qci])
    else Some(qos.defaultDSCP)
  }

  predicate HasFORW(action: byte) {
    action / 2 % 2 == 1
  }

  predicate HasDROP(action: byte) {
    action % 2 == 1
  }

  function BuildValue(cfg: Config, pdr: PDR, far: FAR): Value {
    if HasFORW(far.applyAction) then
      match far.outerIP
      case None => Empty(pdr, PUNT)
      case Some(ip) =>
        var v := Empty(pdr, FORWARD).(
          outerDst := ip, newTEID := far.outerTEID,
          outerSrc := if pdr.sourceInterface == ACCESS then cfg.s5uLocalIP
                      else if pdr.sourceInterface == CORE then cfg.s1uLocalIP else UNSPECIFIED,
          egress := if pdr.sourceInterface == ACCESS then cfg.s5uIfindex
                    else if pdr.sourceInterface == CORE then cfg.s1uIfindex else 0);
        match BearerDSCP(cfg.qos, pdr)
        case None => v
        case Some(dscp) => v.(ebi := pdr.ebi, qci := pdr.qci, qosValid := true, outerDSCP := dscp)
    else if HasDROP(far.applyAction) then
      Empty(pdr, if pdr.sourceInterface == CORE && far.releasedAccess then PUNT else DROP)
    else Empty(pdr, PUNT)
  }

  /** A PDR that names an unknown FAR drops. */
  function ValueFrom(cfg: Config, pdr: PDR, far: Option<FAR>): Value {
    match far
    case None => Empty(pdr, DROP)
    case Some(f) => BuildValue(cfg, pdr, f)
  }

  function ValueOf(cfg: Config, fars: seq<FAR>, pdr: PDR): Value {
    ValueFrom(cfg, pdr, FarByID(fars, pdr.farID))
  }

  /** A PDR without a local TEID or with an unsupported source interface has no rule. */
  function RuleKey(cfg: Config, pdr: PDR): Option<Key> {
    if pdr.localTEID == 0 then None else BuildKey(cfg, pdr)
  }

  // ---- One session ------------------------------------------------------------

  /** The rules of a session on their own: the reference the edited map is held to. */
  function Compile(cfg: Config, fars: seq<FAR>, pdrs: seq<PDR>): Rules {
    if pdrs == [] then map[]
    else
      var pdr := pdrs[|pdrs| - 1];
      var before := Compile(cfg, fars, pdrs[..|pdrs| - 1]);
      match RuleKey(cfg, pdr)
      case None => before
      case Some(key) => before[key := ValueOf(cfg, fars, pdr)]
  }

  function Compiled(cfg: Config, s: Session): Rules {
    Compile(cfg, s.fars, s.pdrs)
  }

  /** The map after the first PDRs were installed; those at faulty positions had no effect. */
  function Installed(cfg: Config, fars: seq<FAR>, pdrs: seq<PDR>, rules: Rules, faulty: set<nat>): Rules {
    if pdrs == [] then rules
    else
      var n := |pdrs| - 1;
      var before := Installed(cfg, fars, pdrs[..n], rules, faulty);
      match RuleKey(cfg, pdrs[n])
      case None => before
      case Some(key) => if n in faulty then before else before[key := ValueOf(cfg, fars, pdrs[n])]
  }

  function Removed(cfg: Config, pdrs: seq<PDR>, rules: Rules, faulty: set<nat>): Rules {
    if pdrs == [] then rules
    else
      var n := |pdrs| - 1;
      var before := Removed(cfg, pdrs[..n], rules, faulty);
      match RuleKey(cfg, pdrs[n])
      case None => before
      case Some(key) => if n in faulty then before else before - {key}
  }

  /** Without faults, installing adds exactly the session's rules and removing takes exactly those keys away. */
  lemma {:induction false} FaultlessSync(cfg: Config, fars: seq<FAR>, pdrs: seq<PDR>, rules: Rules, faulty: set<nat>)
    requires forall i :: 0 <= i < |pdrs| && RuleKey(cfg, pdrs[i]).Some? ==> i !in faulty
    ensures Installed(cfg, fars, pdrs, rules, faulty) == rules + Compile(cfg, fars, pdrs)
    ensures Removed(cfg, pdrs, rules, faulty) == rules - Compile(cfg, fars, pdrs).Keys
  {
    if pdrs != [] {
      var n := |pdrs| - 1;
      FaultlessSync(cfg, fars, pdrs[..n], rules, faulty);
      hide ValueOf, RuleKey;
      match RuleKey(cfg, pdrs[n])
      case None =>
      case Some(key) =>
        assert key in Compile(cfg, fars, pdrs);
    }
  }

  /** A PDR covers the packets that carry its TEID and arrive on its side: S1-U for Access, S5/S8-U for Core. */
  predicate Covers(cfg: Config, pdr: PDR, key: Key) {
    && pdr.localTEID != 0
    && pdr.localTEID == key.teid
    && ((pdr.sourceInterface == ACCESS && key.ifindex == cfg.s1uIfindex) ||
        (pdr.sourceInterface == CORE && key.ifindex == cfg.s5uIfindex))
  }

  /** The PDR that decides for a key: it covers it, and no PDR listed later does. */
  ghost predicate Decides(cfg: Config, pdrs: seq<PDR>, i: int, key: Key) {
    0 <= i < |pdrs| && Covers(cfg, pdrs[i], key) && forall j :: i < j < |pdrs| ==> !Covers(cfg, pdrs[j], key)
  }

  /** A PDR's rule is filed where the packets it covers are looked up. */
  lemma CoversItsKey(cfg: Config, pdr: PDR, key: Key)
    ensures Covers(cfg, pdr, key) <==> RuleKey(cfg, pdr) == Some(key)
  {
  }

  lemma {:induction false} DecidingRule(cfg: Config, fars: seq<FAR>, pdrs: seq<PDR>, i: nat, key: Key)
    requires Decides(cfg, pdrs, i, key)
    ensures key in Compile(cfg, fars, pdrs) && Compile(cfg, fars, pdrs)[key] == ValueOf(cfg, fars, pdrs[i])
  {
    hide RuleKey, ValueOf, Covers;
    var n := |pdrs| - 1;
    CoversItsKey(cfg, pdrs[n], key);
    if i < n {
      DecidingRule(cfg, fars, pdrs[..n], i, key);
    }
  }

  lemma {:induction false} CoveredIffCompiled(cfg: Config, fars: seq<FAR>, pdrs: seq<PDR>, key: Key)
    ensures key in Compile(cfg, fars, pdrs) <==> exists i :: 0 <= i < |pdrs| && Covers(cfg, pdrs[i], key)
  {
    if pdrs != [] {
      hide RuleKey, ValueOf, Covers;
      var n := |pdrs| - 1;
      CoveredIffCompiled(cfg, fars, pdrs[..n], key);
      CoversItsKey(cfg, pdrs[n], key);
      assert forall i :: 0 <= i < n ==> pdrs[..n][i] == pdrs[i];
    }
  }

  /**
   * The rule compiled for a key is the one of the PDR that decides for it, and there is none
   * where no PDR covers the key.
   */
  lemma CompileIsExact(cfg: Config, fars: seq<FAR>, pdrs: seq<PDR>, key: Key)
    ensures forall i :: Decides(cfg, pdrs, i, key) ==>
              key in Compile(cfg, fars, pdrs) && Compile(cfg, fars, pdrs)[key] == ValueOf(cfg, fars, pdrs[i])
    ensures key in Compile(cfg, fars, pdrs) <==> exists i :: 0 <= i < |pdrs| && Covers(cfg, pdrs[i], key)
  {
    hide Compile, ValueOf, Covers;
    CoveredIffCompiled(cfg, fars, pdrs, key);
    forall i | Decides(cfg, pdrs, i, key)
      ensures key in Compile(cfg, fars, pdrs) && Compile(cfg, fars, pdrs)[key] == ValueOf(cfg, fars, pdrs[i])
    {
      DecidingRule(cfg, fars, pdrs, i, key);
    }
  }

  /** The FAR that counts for an identifier: no FAR listed later has the same one. */
  ghost predicate LastFAR(fars: seq<FAR>, i: int, id: u32) {
    0 <= i < |fars| && fars[i].id == id && forall j :: i < j < |fars| ==> fars[j].id != id
  }

  lemma {:induction false} FarByIDIsLast(fars: seq<FAR>, id: u32)
    ensures FarByID(fars, id) == None <==> forall i :: 0 <= i < |fars| ==> fars[i].id != id
    ensures forall i :: LastFAR(fars, i, id) ==> FarByID(fars, id) == Some(fars[i])
  {
    if fars != [] {
      var n := |fars| - 1;
      FarByIDIsLast(fars[..n], id);
      assert forall i :: 0 <= i < n ==> fars[..n][i] == fars[i];
      forall i | LastFAR(fars, i, id) ensures FarByID(fars, id) == Some(fars[i]) {
        if i < n {
          assert LastFAR(fars[..n], i, id);
        }
      }
    }
  }

  /** What a rule says about its packets: which direction, which peer, and whose bearer. */
  lemma ForwardingValue(cfg: Config, fars: seq<FAR>, pdr: PDR, i: int)
    requires pdr.sourceInterface == ACCESS || pdr.sourceInterface == CORE
    requires LastFAR(fars, i, pdr.farID) && fars[i].applyAction / 2 % 2 == 1 && fars[i].outerIP.Some?
    ensures var v, up := ValueOf(cfg, fars, pdr), pdr.sourceInterface == ACCESS;
            var marked := cfg.qos.enabled && cfg.qos.overrideDefault && pdr.qosValid && pdr.qci != 0;
            && v.action == FORWARD && v.counterId == pdr.localTEID
            && v.egress == (if up then cfg.s5uIfindex else cfg.s1uIfindex)
            && v.outerSrc == (if up then cfg.s5uLocalIP else cfg.s1uLocalIP)
            && v.outerDst == fars[i].outerIP.value && v.newTEID == fars[i].outerTEID
            && v.qosValid == marked
            && (marked ==> v.ebi == pdr.ebi && v.qci == pdr.qci && v.outerDSCP ==
                           if pdr.qci in cfg.qos.qciToDSCP then cfg.qos.qciToDSCP[pdr.qci] else cfg.qos.defaultDSCP)
  {
    FarByIDIsLast(fars, pdr.farID);
  }

  /** When a packet is not forwarded: dropped without a FAR or at DROP, unless its access side was released. */
  lemma NotForwardingValue(cfg: Config, fars: seq<FAR>, pdr: PDR)
    ensures (forall i :: 0 <= i < |fars| ==> fars[i].id != pdr.farID) ==> ValueOf(cfg, fars, pdr).action == DROP
    ensures forall i :: LastFAR(fars, i, pdr.farID) ==>
              var far, action := fars[i], ValueOf(cfg, fars, pdr).action;
              && (action == DROP <==> far.applyAction / 2 % 2 == 0 && far.applyAction % 2 == 1 &&
                                      !(pdr.sourceInterface == CORE && far.releasedAccess))
              && (action == FORWARD <==> far.applyAction / 2 % 2 == 1 && far.outerIP.Some?)
              && (action != FORWARD && action != DROP ==> action == PUNT)
  {
    FarByIDIsLast(fars, pdr.farID);
  }

  // ---- Many sessions ----------------------------------------------------------

  datatype Event =
    | Install(id: nat, s: Session)
    | Update(id: nat, s: Session)
    | Remove(id: nat)

  datatype Dataplane = Dataplane(rules: Rules, live: map<nat, Session>)

  predicate Allowed(d: Dataplane, e: Event) {
    match e
    case Install(id, _) => id !in d.live
    case Update(id, _) => id in d.live
    case Remove(id) => id in d.live
  }

  /** One call of the compiler, every map operation succeeding. */
  function Step(cfg: Config, d: Dataplane, e: Event): Dataplane
    requires Allowed(d, e)
  {
    match e
    case Install(id, s) => Dataplane(Installed(cfg, s.fars, s.pdrs, d.rules, {}), d.live[id := s])
    case Update(id, s) => Dataplane(Installed(cfg, s.fars, s.pdrs, d.rules, {}), d.live[id := s])
    case Remove(id) => Dataplane(Removed(cfg, d.live[id].pdrs, d.rules, {}), d.live - {id})
  }

  /** No two live sessions have a rule under the same key. */
  ghost predicate KeysDisjoint(cfg: Config, live: map<nat, Session>) {
    forall i, j, k :: i in live && j in live && k in Compiled(cfg, live[i]) && k in Compiled(cfg, live[j]) ==> i == j
  }

  /** The map holds each live session's compiled rules, and nothing more. */
  ghost predicate IsUnion(cfg: Config, d: Dataplane) {
    && (forall id, k :: id in d.live && k in Compiled(cfg, d.live[id]) ==>
          k in d.rules && d.rules[k] == Compiled(cfg, d.live[id])[k])
    && (forall k :: k in d.rules ==> exists id :: id in d.live && k in Compiled(cfg, d.live[id]))
  }

  lemma StepRules(cfg: Config, d: Dataplane, e: Event)
    requires Allowed(d, e)
    ensures Step(cfg, d, e).rules ==
            if e.Remove? then d.rules - Compiled(cfg, d.live[e.id]).Keys else d.rules + Compiled(cfg, e.s)
    ensures Step(cfg, d, e).live == if e.Remove? then d.live - {e.id} else d.live[e.id := e.s]
  {
    if e.Remove? {
      FaultlessSync(cfg, d.live[e.id].fars, d.live[e.id].pdrs, d.rules, {});
    } else {
      FaultlessSync(cfg, e.s.fars, e.s.pdrs, d.rules, {});
    }
  }

  lemma InstallKeepsUnion(cfg: Config, d: Dataplane, e: Event)
    requires Allowed(d, e) && e.Install? && IsUnion(cfg, d) && KeysDisjoint(cfg, Step(cfg, d, e).live)
    ensures IsUnion(cfg, Step(cfg, d, e))
  {
    hide Compiled, Step;
    StepRules(cfg, d, e);
    var n := Step(cfg, d, e);
    assert e.id in n.live && n.live[e.id] == e.s;
    assert forall i :: i in d.live ==> i in n.live && n.live[i] == d.live[i];
  }

  lemma RemoveKeepsUnion(cfg: Config, d: Dataplane, e: Event)
    requires Allowed(d, e) && e.Remove? && IsUnion(cfg, d) && KeysDisjoint(cfg, d.live)
    ensures IsUnion(cfg, Step(cfg, d, e))
  {
    hide Compiled, Step;
    StepRules(cfg, d, e);
    var n := Step(cfg, d, e);
    forall k | k in n.rules ensures exists id :: id in n.live && k in Compiled(cfg, n.live[id]) {
      var id :| id in d.live && k in Compiled(cfg, d.live[id]);
      assert id in n.live && n.live[id] == d.live[id];
    }
  }

  /**
   * Exactly when an update leaves the map right: it must not drop a key. A key it drops
   * stays behind, and nothing removes it later, since removal walks the new PDR list.
   */
  lemma UpdateKeepsUnionIff(cfg: Config, d: Dataplane, e: Event)
    requires Allowed(d, e) && e.Update? && IsUnion(cfg, d)
    requires KeysDisjoint(cfg, d.live) && KeysDisjoint(cfg, Step(cfg, d, e).live)
    ensures IsUnion(cfg, Step(cfg, d, e)) <==> Compiled(cfg, d.live[e.id]).Keys <= Compiled(cfg, e.s).Keys
  {
    hide Compiled, Step;
    StepRules(cfg, d, e);
    var n := Step(cfg, d, e);
    if Compiled(cfg, d.live[e.id]).Keys <= Compiled(cfg, e.s).Keys {
      KeepingUpdate(cfg, d, n, e.id, e.s);
    } else {
      var k :| k in Compiled(cfg, d.live[e.id]) && k !in Compiled(cfg, e.s);
      DroppedKeyStays(cfg, d, n, e.id, e.s, k);
    }
  }

  lemma KeepingUpdate(cfg: Config, d: Dataplane, n: Dataplane, id: nat, s: Session)
    requires id in d.live && IsUnion(cfg, d) && KeysDisjoint(cfg, n.live)
    requires n == Dataplane(d.rules + Compiled(cfg, s), d.live[id := s])
    requires Compiled(cfg, d.live[id]).Keys <= Compiled(cfg, s).Keys
    ensures IsUnion(cfg, n)
  {
    hide Compiled;
    assert n.live[id] == s;
    forall k | k in n.rules ensures exists i :: i in n.live && k in Compiled(cfg, n.live[i]) {
      if k !in Compiled(cfg, s) {
        var i :| i in d.live && k in Compiled(cfg, d.live[i]);
        assert i in n.live && n.live[i] == d.live[i];
      }
    }
  }

  lemma DroppedKeyStays(cfg: Config, d: Dataplane, n: Dataplane, id: nat, s: Session, k: Key)
    requires id in d.live && IsUnion(cfg, d) && KeysDisjoint(cfg, d.live)
    requires n == Dataplane(d.rules + Compiled(cfg, s), d.live[id := s])
    requires k in Compiled(cfg, d.live[id]) && k !in Compiled(cfg, s)
    ensures k in n.rules && n.rules[k] == d.rules[k] && !IsUnion(cfg, n)
  {
    hide Compiled;
    assert k in d.rules;
    forall i | i in n.live ensures k !in Compiled(cfg, n.live[i]) {
    }
  }

  /** Calls in a permitted order from some point on, whatever the sessions hold. */
  ghost predicate Follows(cfg: Config, d: Dataplane, es: seq<Event>)
    decreases |es|, 0
  {
    es == [] || (Follows(cfg, d, es[..|es| - 1]) && Allowed(RunFrom(cfg, d, es[..|es| - 1]), es[|es| - 1]))
  }

  ghost function RunFrom(cfg: Config, d: Dataplane, es: seq<Event>): Dataplane
    requires Follows(cfg, d, es)
    decreases |es|, 1
  {
    if es == [] then d else Step(cfg, RunFrom(cfg, d, es[..|es| - 1]), es[|es| - 1])
  }

  /** Whether a call's PDR list, as the compiler walks it, has a rule under a key. */
  predicate Lists(cfg: Config, d: Dataplane, e: Event, key: Key)
    requires Allowed(d, e)
  {
    key in if e.Remove? then Compiled(cfg, d.live[e.id]) else Compiled(cfg, e.s)
  }

  ghost predicate NoneLists(cfg: Config, d: Dataplane, es: seq<Event>, key: Key)
    requires Follows(cfg, d, es)
    decreases |es|
  {
    es == [] ||
    (NoneLists(cfg, d, es[..|es| - 1], key) && !Lists(cfg, RunFrom(cfg, d, es[..|es| - 1]), es[|es| - 1], key))
  }

  /** A rule stays in the map as it is, through every later run, until some call lists its key. */
  lemma {:induction false} RuleStaysUntilListed(cfg: Config, d: Dataplane, es: seq<Event>, key: Key)
    requires Follows(cfg, d, es) && NoneLists(cfg, d, es, key) && key in d.rules
    ensures key in RunFrom(cfg, d, es).rules && RunFrom(cfg, d, es).rules[key] == d.rules[key]
    decreases |es|
  {
    if es != [] {
      hide Compiled, Step;
      var before := RunFrom(cfg, d, es[..|es| - 1]);
      RuleStaysUntilListed(cfg, d, es[..|es| - 1], key);
      StepRules(cfg, before, es[|es| - 1]);
    }
  }

  /**
   * So a key dropped by an update outlives its session: removing the session walks the new
   * PDR list and leaves the rule behind.
   */
  lemma DroppedKeyOutlivesSession(cfg: Config, d: Dataplane, e: Event, key: Key)
    requires Allowed(d, e) && e.Update? && IsUnion(cfg, d)
    requires key in Compiled(cfg, d.live[e.id]) && key !in Compiled(cfg, e.s)
    ensures var updated := Step(cfg, d, e);
            && Allowed(updated, Remove(e.id))
            && var removed := Step(cfg, updated, Remove(e.id));
               && e.id !in removed.live
               && key in removed.rules && key in d.rules && removed.rules[key] == d.rules[key]
  {
    hide Compiled, Step;
    StepRules(cfg, d, e);
    var updated := Step(cfg, d, e);
    StepRules(cfg, updated, Remove(e.id));
  }

  /** Calls in a permitted order, live sessions always disjoint, no update dropping a key. */
  ghost predicate Proper(cfg: Config, es: seq<Event>)
    decreases |es|, 0
  {
    es == [] ||
    (Proper(cfg, es[..|es| - 1]) &&
     var d, e := Run(cfg, es[..|es| - 1]), es[|es| - 1];
     && Allowed(d, e)
     && KeysDisjoint(cfg, Step(cfg, d, e).live)
     && (e.Update? ==> Compiled(cfg, d.live[e.id]).Keys <= Compiled(cfg, e.s).Keys))
  }

  ghost function Run(cfg: Config, es: seq<Event>): Dataplane
    requires Proper(cfg, es)
    decreases |es|, 1
  {
    if es == [] then Dataplane(map[], map[]) else Step(cfg, Run(cfg, es[..|es| - 1]), es[|es| - 1])
  }

  /** Over every proper run the incrementally edited map is the union of the live sessions' compiled rules. */
  lemma {:induction false} RunIsUnion(cfg: Config, es: seq<Event>)
    requires Proper(cfg, es)
    ensures IsUnion(cfg, Run(cfg, es)) && KeysDisjoint(cfg, Run(cfg, es).live)
    decreases |es|
  {
    if es != [] {
      var d, e := Run(cfg, es[..|es| - 1]), es[|es| - 1];
      RunIsUnion(cfg, es[..|es| - 1]);
      hide Step, IsUnion, KeysDisjoint;
      match e
      case Install(_, _) => InstallKeepsUnion(cfg, d, e);
      case Update(_, _) => UpdateKeepsUnionIff(cfg, d, e);
      case Remove(_) => RemoveKeepsUnion(cfg, d, e);
    }
  }

  // ---- The compiler object ----------------------------------------------------

  datatype Counters = Counters(packets: nat, bytes: nat)

  /** Positions of the PDR list at which a lookup, a write or a counter operation of the map fails. */
  datatype Faults = Faults(lookups: set<nat>, writes: set<nat>, stats: set<nat>)

  predicate Unsupported(cfg: Config, pdr: PDR) {
    pdr.localTEID != 0 && BuildKey(cfg, pdr).None?
  }

  predicate MayFail(cfg: Config, pdrs: seq<PDR>, faults: Faults, i: nat)
    requires i < |pdrs|
  {
    Unsupported(cfg, pdrs[i]) || (pdrs[i].localTEID != 0 && i in faults.lookups + faults.writes)
  }

  lemma RuleKeyCases(cfg: Config, pdr: PDR)
    ensures RuleKey(cfg, pdr) == if pdr.localTEID == 0 then None else BuildKey(cfg, pdr)
    ensures Unsupported(cfg, pdr) <==> pdr.localTEID != 0 && BuildKey(cfg, pdr) == None
  {
  }

  lemma NothingSynced(cfg: Config, fars: seq<FAR>, rules: Rules, faulty: set<nat>)
    ensures Installed(cfg, fars, [], rules, faulty) == rules == Removed(cfg, [], rules, faulty)
    ensures Compile(cfg, fars, []) == map[]
  {
  }

  lemma OneMoreSynced(cfg: Config, fars: seq<FAR>, pdrs: seq<PDR>, i: nat, rules: Rules, faulty: set<nat>)
    requires i < |pdrs|
    ensures var k, v := RuleKey(cfg, pdrs[i]), ValueOf(cfg, fars, pdrs[i]);
            var ins, rem := Installed(cfg, fars, pdrs[..i], rules, faulty), Removed(cfg, pdrs[..i], rules, faulty);
            && Compile(cfg, fars, pdrs[..i + 1]) ==
                 (if k == None then Compile(cfg, fars, pdrs[..i]) else Compile(cfg, fars, pdrs[..i])[k.value := v])
            && Installed(cfg, fars, pdrs[..i + 1], rules, faulty) ==
                 (if k == None || i in faulty then ins else ins[k.value := v])
            && Removed(cfg, pdrs[..i + 1], rules, faulty) ==
                 (if k == None || i in faulty then rem else rem - {k.value})
  {
    assert pdrs[..i + 1][..i] == pdrs[..i];
  }

  class Compiler {
    const cfg: Config
    var rules: Rules
    var stats: map<u32, Counters>

    constructor (cfg: Config)
      ensures this.cfg == cfg && rules == map[] && stats == map[]
    {
      this.cfg := cfg;
      rules, stats := map[], map[];
    }

    method InstallRuleIfChanged(key: Key, val: Value, lookupFails: bool, writeFails: bool) returns (ok: bool)
      modifies this`rules
      ensures rules == if lookupFails || writeFails then old(rules) else old(rules)[key := val]
      ensures ok ==> rules == old(rules)[key := val]
      ensures !ok ==> lookupFails || writeFails
    {
      if lookupFails {
        return false;
      }
      if key in rules && rules[key] == val {
        return true;
      }
      if writeFails {
        return false;
      }
      rules := rules[key := val];
      return true;
    }

    /** The rule of one PDR: installed, replaced, or removed, unless a map operation fails. */
    method SyncRule(pdr: PDR, key: Key, far: Option<FAR>, remove: bool, position: nat, faults: Faults) returns (ok: bool)
      modifies this
      ensures ok ==> rules == if remove then old(rules) - {key} else old(rules)[key := ValueFrom(cfg, pdr, far)]
      ensures rules == if position in faults.lookups + faults.writes then old(rules)
                       else if remove then old(rules) - {key} else old(rules)[key := ValueFrom(cfg, pdr, far)]
      ensures !ok ==> position in faults.lookups + faults.writes
      ensures remove && position in faults.lookups ==> stats == old(stats)
      ensures remove && position !in faults.lookups + faults.stats ==> stats == old(stats) - {pdr.localTEID}
      ensures !remove ==> stats == if position !in faults.stats && ValueFrom(cfg, pdr, far).action == FORWARD && pdr.localTEID !in old(stats)
                                   then old(stats)[pdr.localTEID := Counters(0, 0)] else old(stats)
    {
      var lookupFails, writeFails := position in faults.lookups, position in faults.writes;
      if remove {
        if lookupFails {
          return false;
        }
        ok := !writeFails;
        if ok {
          rules := rules - {key};
        }
        if position !in faults.stats {
          stats := stats - {pdr.localTEID};
        }
      } else if far == None {
        ok := InstallRuleIfChanged(key, Empty(pdr, DROP), lookupFails, writeFails);
      } else {
        var val := BuildValue(cfg, pdr, far.value);
        if val.action == FORWARD && position !in faults.stats && val.counterId !in stats {
          stats := stats[val.counterId := Counters(0, 0)];
        }
        ok := InstallRuleIfChanged(key, val, lookupFails, writeFails);
      }
    }

    /**
     * Installs or removes the rules of a session. Reported success means the whole effect
     * took place; an error is reported for an unsupported PDR or a failed operation only.
     */
    method SyncRules(s: Session, remove: bool, faults: Faults) returns (ok: bool)
      modifies this
      ensures var faulty := faults.lookups + faults.writes;
              rules == if remove then Removed(cfg, s.pdrs, old(rules), faulty)
                       else Installed(cfg, s.fars, s.pdrs, old(rules), faulty)
      ensures ok ==> rules == if remove then old(rules) - Compiled(cfg, s).Keys else old(rules) + Compiled(cfg, s)
      ensures !ok ==> exists i :: 0 <= i < |s.pdrs| && MayFail(cfg, s.pdrs, faults, i)
      ensures (exists i :: 0 <= i < |s.pdrs| && Unsupported(cfg, s.pdrs[i])) ==> !ok
      ensures !remove && faults.stats == {} ==> Counted(s.fars, s.pdrs)
    {
      var pdrs, fars := s.pdrs, s.fars;
      hide Installed, Removed, Compile, ValueFrom, BuildKey, FarByID, Unsupported;
      var farByID := FarIndex(fars);
      ghost var faulty := faults.lookups + faults.writes;
      ok := true;
      NothingSynced(cfg, fars, rules, faulty);
      for i := 0 to |pdrs|
        invariant rules == if remove then Removed(cfg, pdrs[..i], old(rules), faulty)
                           else Installed(cfg, fars, pdrs[..i], old(rules), faulty)
        invariant ok ==> rules == if remove then old(rules) - Compile(cfg, fars, pdrs[..i]).Keys
                                  else old(rules) + Compile(cfg, fars, pdrs[..i])
        invariant ok ==> forall j :: 0 <= j < i ==> !Unsupported(cfg, pdrs[j])
        invariant !ok ==> exists j :: 0 <= j < i && MayFail(cfg, pdrs, faults, j)
        invariant !remove && faults.stats == {} ==> Counted(fars, pdrs[..i])
      {
        OneMoreSynced(cfg, fars, pdrs, i, old(rules), faulty);
        var pdr := pdrs[i];
        RuleKeyCases(cfg, pdr);
        if pdr.localTEID == 0 {
          continue;
        }
        var key := BuildKey(cfg, pdr);
        if key == None {
          assert MayFail(cfg, pdrs, faults, i);
          ok := false;
          continue;
        }
        var far := if pdr.farID in farByID then Some(farByID[pdr.farID]) else None;
        var synced := SyncRule(pdr, key.value, far, remove, i, faults);
        if !synced {
          assert MayFail(cfg, pdrs, faults, i);
          ok := false;
        }
      }
      assert pdrs[..|pdrs|] == pdrs;
    }

    /** Every forwarding rule has its counter, which the program does not create by itself. */
    ghost predicate Counted(fars: seq<FAR>, pdrs: seq<PDR>)
      reads this
    {
      forall pdr :: pdr in pdrs && RuleKey(cfg, pdr).Some? && ValueOf(cfg, fars, pdr).action == FORWARD ==> pdr.localTEID in stats
    }

    method FarIndex(fars: seq<FAR>) returns (farByID: map<u32, FAR>)
      ensures forall id: u32 :: FarByID(fars, id) == if id in farByID then Some(farByID[id]) else None
    {
      farByID := map[];
      for i := 0 to |fars|
        invariant forall id: u32 :: FarByID(fars[..i], id) == if id in farByID then Some(farByID[id]) else None
      {
        assert fars[..i + 1][..i] == fars[..i];
        farByID := farByID[fars[i].id := fars[i]];
      }
      assert fars[..|fars|] == fars;
    }

    method InstallSession(s: Session, faults: Faults) returns (ok: bool)
      modifies this
      ensures ok ==> rules == old(rules) + Compiled(cfg, s)
    {
      ok := SyncRules(s, false, faults);
    }

    method RemoveSession(s: Session, faults: Faults) returns (ok: bool)
      modifies this
      ensures ok ==> rules == old(rules) - Compiled(cfg, s).Keys
    {
      ok := SyncRules(s, true, faults);
    }
  }
}
