/**
 * Downlink Data Notification throttling (internal/sgwc/ddncontrol/state.go): a token
 * bucket per MME, a minimum spacing per UE, and low-priority suppression.
 * Times and durations are nanoseconds; time zero stands for Go's zero time.
 */
module DdnControl {
  import opened Wrappers

  datatype Priority = High | Normal | Low

  datatype Action = SendNow | Delay | Suppress

  /** Zero fields are wildcards; ARP priority 1 is the highest. */
  datatype PriorityRule = PriorityRule(apn: string, qci: nat, arpMin: nat, arpMax: nat)

  datatype Config = Config(
    enabled: bool,
    rate: int,
    burst: int,
    perUESuppression: int,
    honorMMELowPriority: bool,
    highPriorityBypass: bool,
    highPriority: seq<PriorityRule>,
    lowPriority: seq<PriorityRule>)

  datatype Candidate = Candidate(mme: string, imsi: string, apn: string, ebi: nat, qci: nat, arpPriority: nat)

  datatype Reason =
    | Classified
    | ControlDisabled
    | PerUESuppression
    | MMELowPriorityThrottling
    | HighPriorityBypass
    | PerMMERateLimit

  datatype Decision = Decision(
    action: Action, priority: Priority, reason: Reason, retryAfter: int, bypass: bool,
    tokensBefore: int, tokensAfter: int)

  datatype MMEState = MMEState(
    tokens: int, burst: int, rate: int, lastRefillAt: int,
    throttledUntil: int, throttleReceived: int,
    sent: nat, delayed: nat, suppressed: nat, highPriorityBypassed: nat)

  datatype UEState = UEState(
    lastDDNAt: int, lastMME: string, lastAPN: string, lastEBI: nat, lastPriority: Option<Priority>,
    suppressed: nat, delayed: nat, sent: nat)

  datatype DdnState = DdnState(mmes: map<string, MMEState>, ues: map<string, UEState>)

  const SECOND: int := 1_000_000_000

  // ---- Classification ---------------------------------------------------------

  function Fold(c: char): char {
    if 'A' <= c <= 'Z' then c + ' ' else c
  }

  predicate EqualFold(a: string, b: string) {
    |a| == |b| && forall i :: 0 <= i < |a| ==> Fold(a[i]) == Fold(b[i])
  }

  predicate Matches(r: PriorityRule, c: Candidate) {
    && (r.apn == "" || EqualFold(r.apn, c.apn))
    && (r.qci == 0 || r.qci == c.qci)
    && ((r.arpMin == 0 && r.arpMax == 0) ||
        (if r.arpMin == 0 then 1 else r.arpMin) <= c.arpPriority <= (if r.arpMax == 0 then 15 else r.arpMax))
  }

  function Classify(cfg: Config, c: Candidate): Priority {
    if exists r :: r in cfg.highPriority && Matches(r, c) then High
    else if exists r :: r in cfg.lowPriority && Matches(r, c) then Low
    else Normal
  }

  // ---- Token bucket -----------------------------------------------------------

  const INT64_RANGE: int := 0x1_0000_0000_0000_0000
  const INT64_MAX: int := 0x7FFF_FFFF_FFFF_FFFF

  /** Two's-complement wrap-around of 64-bit multiplication. */
  function Wrap64(x: int): int {
    (x + INT64_MAX + 1) % INT64_RANGE - INT64_MAX - 1
  }

  /** Go's integer division truncates toward zero. */
  function TruncDiv(x: int, d: int): int
    requires d > 0
  {
    if x >= 0 then x / d else -(-x / d)
  }

  function PositiveOr(x: int, default: int): int {
    if x <= 0 then default else x
  }

  function EffectiveRate(cfg: Config): int {
    PositiveOr(cfg.rate, 1)
  }

  function EffectiveBurst(cfg: Config): int {
    PositiveOr(cfg.burst, EffectiveRate(cfg))
  }

  /** Converting a float beyond 64 bits gives the least integer, as the amd64 instruction does. */
  function FloatToInt(x: int): int {
    if x > INT64_MAX then -INT64_MAX - 1 else x
  }

  /** Tokens earned over an interval; the difference of two times saturates at the largest duration. */
  function Earned(rate: int, last: int, at: int): int {
    FloatToInt(Elapsed(last, at) * rate / SECOND)
  }

  function Elapsed(last: int, at: int): int {
    if at - last > INT64_MAX then INT64_MAX else at - last
  }

  function Min(a: int, b: int): int {
    if a < b then a else b
  }

  function Refill(cfg: Config, m: MMEState, at: int): MMEState {
    var rate := EffectiveRate(cfg);
    var burst := PositiveOr(m.burst, EffectiveBurst(cfg));
    var m1 := m.(burst := burst, rate := PositiveOr(m.rate, rate), tokens := Min(m.tokens, burst));
    if m.lastRefillAt == 0 then m1.(lastRefillAt := at)
    else if at <= m.lastRefillAt then m1
    else
      var add := Earned(rate, m.lastRefillAt, at);
      if add <= 0 then m1
      else m1.(tokens := Min(Wrap64(m1.tokens + add), burst),
               lastRefillAt := m.lastRefillAt + TruncDiv(Wrap64(add * SECOND), rate))
  }

  /** time.Second / rate, using the bucket's own rate when it has one. */
  function NextTokenDelay(cfg: Config, m: MMEState): int {
    SECOND / PositiveOr(if m.rate > 0 then m.rate else cfg.rate, 1)
  }

  // ---- One decision -----------------------------------------------------------

  function NewMME(cfg: Config, at: int): MMEState {
    MMEState(cfg.burst, cfg.burst, cfg.rate, at, 0, 0, 0, 0, 0, 0)
  }

  const NEW_UE: UEState := UEState(0, "", "", 0, None, 0, 0, 0)

  function MMEOf(cfg: Config, s: DdnState, addr: string, at: int): MMEState {
    if addr in s.mmes then s.mmes[addr] else NewMME(cfg, at)
  }

  function UEOf(s: DdnState, imsi: string): UEState {
    if imsi in s.ues then s.ues[imsi] else NEW_UE
  }

  function Touch(u: UEState, c: Candidate, p: Priority): UEState {
    u.(lastMME := c.mme, lastAPN := c.apn, lastEBI := c.ebi, lastPriority := Some(p))
  }

  function RecordSent(cfg: Config, m: MMEState, p: Priority): MMEState {
    m.(sent := m.sent + 1,
       highPriorityBypassed := m.highPriorityBypassed + if p == High && cfg.highPriorityBypass then 1 else 0)
  }

  datatype Outcome = Outcome(m: MMEState, u: UEState, d: Decision)

  /** The decision and the two records it updates; every other MME and UE is left alone. */
  function DecideFor(cfg: Config, m0: MMEState, u: UEState, c: Candidate, at: int): Outcome {
    var p := Classify(cfg, c);
    if !cfg.enabled then
      Outcome(RecordSent(cfg, m0, p), Touch(u, c, p).(lastDDNAt := at, sent := u.sent + 1),
              Decision(SendNow, p, ControlDisabled, 0, false, 0, 0))
    else Admit(cfg, Refill(cfg, m0, at), u, c, p, at)
  }

  /** The decision on a refilled bucket. */
  function Admit(cfg: Config, m: MMEState, u: UEState, c: Candidate, p: Priority, at: int): Outcome {
    var base := Decision(Suppress, p, Classified, 0, false, m.tokens, m.tokens);
    var until := u.lastDDNAt + cfg.perUESuppression;
    if p != High && cfg.perUESuppression > 0 && u.lastDDNAt != 0 && at < until then
      Outcome(m.(suppressed := m.suppressed + 1), Touch(u, c, p).(suppressed := u.suppressed + 1),
              base.(reason := PerUESuppression, retryAfter := until - at))
    else if p == Low && cfg.honorMMELowPriority && m.throttledUntil != 0 && at < m.throttledUntil then
      Outcome(m.(suppressed := m.suppressed + 1), Touch(u, c, p).(suppressed := u.suppressed + 1),
              base.(reason := MMELowPriorityThrottling, retryAfter := m.throttledUntil - at))
    else
      var sentUE := Touch(u, c, p).(lastDDNAt := at, sent := u.sent + 1);
      if m.tokens > 0 then
        Outcome(RecordSent(cfg, m.(tokens := m.tokens - 1), p), sentUE,
                base.(action := SendNow, tokensAfter := m.tokens - 1))
      else if p == High && cfg.highPriorityBypass then
        Outcome(RecordSent(cfg, m, p), sentUE,
                base.(action := SendNow, bypass := true, reason := HighPriorityBypass))
      else
        Outcome(m.(delayed := m.delayed + 1), Touch(u, c, p).(delayed := u.delayed + 1),
                base.(action := Delay, reason := PerMMERateLimit, retryAfter := NextTokenDelay(cfg, m)))
  }

  function Decide(cfg: Config, s: DdnState, c: Candidate, at: int): Outcome {
    DecideFor(cfg, MMEOf(cfg, s, c.mme, at), UEOf(s, c.imsi), c, at)
  }

  // ---- Runs -------------------------------------------------------------------

  datatype Event =
    | Decided(c: Candidate, at: int)
    | Throttled(mme: string, until: int, at: int)

  function Step(cfg: Config, s: DdnState, e: Event): DdnState {
    match e
    case Decided(c, at) =>
      var o := Decide(cfg, s, c, at);
      DdnState(s.mmes[c.mme := o.m], s.ues[c.imsi := o.u])
    case Throttled(addr, until, at) =>
      s.(mmes := s.mmes[addr := MMEOf(cfg, s, addr, at).(throttledUntil := until, throttleReceived := at)])
  }

  function Run(cfg: Config, es: seq<Event>): DdnState {
    if es == [] then DdnState(map[], map[]) else Step(cfg, Run(cfg, es[..|es| - 1]), es[|es| - 1])
  }

  function DecisionAt(cfg: Config, es: seq<Event>, k: nat): Decision
    requires k < |es| && es[k].Decided?
  {
    Decide(cfg, Run(cfg, es[..k]), es[k].c, es[k].at).d
  }

  predicate Sends(cfg: Config, es: seq<Event>, k: nat)
    requires k < |es|
  {
    es[k].Decided? && DecisionAt(cfg, es, k).action == SendNow
  }

  /** Positive times that never go back. */
  predicate InOrder(es: seq<Event>) {
    && (forall k :: 0 <= k < |es| ==> es[k].at > 0)
    && (forall j, k :: 0 <= j <= k < |es| ==> es[j].at <= es[k].at)
  }

  lemma RunPrefix(cfg: Config, es: seq<Event>)
    requires es != []
    ensures Run(cfg, es) == Step(cfg, Run(cfg, es[..|es| - 1]), es[|es| - 1])
    ensures forall k :: 0 <= k < |es| - 1 ==> es[..|es| - 1][..k] == es[..k]
    ensures InOrder(es) ==> InOrder(es[..|es| - 1])
  {
  }

  // ---- Per-UE spacing ---------------------------------------------------------

  lemma {:induction false} LastSendRemembered(cfg: Config, es: seq<Event>, i: nat)
    requires InOrder(es) && i < |es| && Sends(cfg, es, i)
    ensures es[i].c.imsi in Run(cfg, es).ues
    ensures es[i].at <= Run(cfg, es).ues[es[i].c.imsi].lastDDNAt
  {
    RunPrefix(cfg, es);
    var prefix, e := es[..|es| - 1], es[|es| - 1];
    if e.Decided? {
      var s := Run(cfg, prefix);
      DecideCounts(cfg, MMEOf(cfg, s, e.c.mme, e.at), UEOf(s, e.c.imsi), e.c, e.at);
    }
    hide DecideFor;
    if i < |prefix| {
      assert prefix[..i] == es[..i];
      LastSendRemembered(cfg, prefix, i);
      assert es[i].at <= e.at;
    }
  }

  /**
   * A notification that is not high priority is sent to a UE no sooner than
   * perUESuppression after any earlier one for it, whichever MMEs carried them.
   */
  lemma PerUESpacing(cfg: Config, es: seq<Event>, i: nat, j: nat)
    requires cfg.enabled && InOrder(es) && i < j < |es|
    requires Sends(cfg, es, i) && Sends(cfg, es, j)
    requires es[i].c.imsi == es[j].c.imsi && Classify(cfg, es[j].c) != High
    ensures es[j].at - es[i].at >= cfg.perUESuppression
  {
    var before := es[..j];
    assert before[..i] == es[..i];
    LastSendRemembered(cfg, before, i);
    hide Run, Classify, Refill;
    assert Sends(cfg, before, i);
    assert es[i].at <= es[j].at;
  }

  // ---- When a notification is sent, delayed or suppressed ---------------------

  /** The last notification sent for the UE is too recent. */
  predicate Spaced(cfg: Config, s: DdnState, c: Candidate, at: int) {
    && Classify(cfg, c) != High && cfg.perUESuppression > 0
    && c.imsi in s.ues && s.ues[c.imsi].lastDDNAt != 0 && at < s.ues[c.imsi].lastDDNAt + cfg.perUESuppression
  }

  /** The MME asked for no low-priority notifications until later. */
  predicate HeldBack(cfg: Config, s: DdnState, c: Candidate, at: int) {
    && Classify(cfg, c) == Low && cfg.honorMMELowPriority
    && c.mme in s.mmes && s.mmes[c.mme].throttledUntil != 0 && at < s.mmes[c.mme].throttledUntil
  }

  lemma RefillKeepsNotice(cfg: Config, m: MMEState, at: int)
    ensures var r := Refill(cfg, m, at);
            r.throttledUntil == m.throttledUntil && r.throttleReceived == m.throttleReceived && r.highPriorityBypassed == m.highPriorityBypassed
  {
    hide Earned, TruncDiv, Wrap64;
  }

  /**
   * Exactly when each action is taken: suppression for spacing or for the MME's own
   * throttling, sending on a token left after the refill or on the high-priority bypass, and
   * delay for the rest; a disabled control sends everything.
   */
  lemma DecisionIff(cfg: Config, s: DdnState, c: Candidate, at: int)
    ensures var d, tokens := Decide(cfg, s, c, at).d, Refill(cfg, MMEOf(cfg, s, c.mme, at), at).tokens;
            var stopped := cfg.enabled && (Spaced(cfg, s, c, at) || HeldBack(cfg, s, c, at));
            var bypasses := Classify(cfg, c) == High && cfg.highPriorityBypass;
            && d.priority == Classify(cfg, c)
            && (d.action == Suppress <==> stopped)
            && (d.action == SendNow <==> !cfg.enabled || (!stopped && (tokens > 0 || bypasses)))
            && (d.action == Delay <==> cfg.enabled && !stopped && tokens <= 0 && !bypasses)
  {
    hide Classify, Refill;
    RefillKeepsNotice(cfg, MMEOf(cfg, s, c.mme, at), at);
  }

  /** What a decision reports: why, when to retry, and what it cost the MME's bucket. */
  lemma DecisionReports(cfg: Config, s: DdnState, c: Candidate, at: int)
    ensures !cfg.enabled ==>
              Decide(cfg, s, c, at).d == Decision(SendNow, Classify(cfg, c), ControlDisabled, retryAfter := 0, bypass := false, tokensBefore := 0, tokensAfter := 0)
    ensures cfg.enabled ==>
            var o, m := Decide(cfg, s, c, at), Refill(cfg, MMEOf(cfg, s, c.mme, at), at);
            var d := o.d;
            && (Spaced(cfg, s, c, at) ==>
                  d.reason == PerUESuppression && d.retryAfter == s.ues[c.imsi].lastDDNAt + cfg.perUESuppression - at)
            && (!Spaced(cfg, s, c, at) && HeldBack(cfg, s, c, at) ==>
                  d.reason == MMELowPriorityThrottling && d.retryAfter == s.mmes[c.mme].throttledUntil - at)
            && (d.action == Delay ==>
                  d.reason == PerMMERateLimit && d.retryAfter == SECOND / (if m.rate > 0 then m.rate else if cfg.rate > 0 then cfg.rate else 1))
            && (d.action == SendNow ==> d.retryAfter == 0 && d.reason == if m.tokens > 0 then Classified else HighPriorityBypass)
            && (d.bypass <==> d.action == SendNow && m.tokens <= 0)
            && d.tokensBefore == m.tokens
            && d.tokensAfter == o.m.tokens == m.tokens - (if d.action == SendNow && m.tokens > 0 then 1 else 0)
  {
    hide Classify, Refill;
    RefillKeepsNotice(cfg, MMEOf(cfg, s, c.mme, at), at);
  }

  /** What a decision records, sent or not: the UE's last contact, and a bypass counted for its MME; throttling stays. */
  lemma DecisionRecords(cfg: Config, s: DdnState, c: Candidate, at: int)
    ensures var o, m := Decide(cfg, s, c, at), MMEOf(cfg, s, c.mme, at);
            && o.u.lastMME == c.mme && o.u.lastAPN == c.apn && o.u.lastEBI == c.ebi && o.u.lastPriority == Some(Classify(cfg, c))
            && o.m.highPriorityBypassed ==
               m.highPriorityBypassed + (if o.d.action == SendNow && Classify(cfg, c) == High && cfg.highPriorityBypass then 1 else 0)
            && o.m.throttledUntil == m.throttledUntil && o.m.throttleReceived == m.throttleReceived
  {
    hide Classify, Refill;
    RefillKeepsNotice(cfg, MMEOf(cfg, s, c.mme, at), at);
  }

  /** An MME's throttling notice is remembered until its next one. */
  lemma {:induction false} NoticeRemembered(cfg: Config, es: seq<Event>, i: nat)
    requires i < |es| && es[i].Throttled?
    requires forall k :: i < k < |es| && es[k].Throttled? ==> es[k].mme != es[i].mme
    ensures es[i].mme in Run(cfg, es).mmes && Run(cfg, es).mmes[es[i].mme].throttledUntil == es[i].until
  {
    hide DecideFor;
    RunPrefix(cfg, es);
    var prefix, e := es[..|es| - 1], es[|es| - 1];
    if i < |prefix| {
      NoticeRemembered(cfg, prefix, i);
      if e.Decided? {
        DecisionRecords(cfg, Run(cfg, prefix), e.c, e.at);
      }
    }
  }

  /**
   * Over any run: once an MME has asked for throttling until some time, and until it says
   * otherwise, no low-priority notification for it is sent or delayed before that time.
   */
  lemma ThrottledMMEIsSpared(cfg: Config, es: seq<Event>, i: nat, j: nat)
    requires cfg.enabled && cfg.honorMMELowPriority && i < j < |es|
    requires es[i].Throttled? && es[i].until != 0
    requires es[j].Decided? && es[j].c.mme == es[i].mme && Classify(cfg, es[j].c) == Low && es[j].at < es[i].until
    requires forall k :: i < k < j && es[k].Throttled? ==> es[k].mme != es[i].mme
    ensures DecisionAt(cfg, es, j).action == Suppress && !Sends(cfg, es, j)
  {
    hide Run, Classify, Decide;
    NoticeRemembered(cfg, es[..j], i);
    DecisionIff(cfg, Run(cfg, es[..j]), es[j].c, es[j].at);
  }

  /**
   * And only low-priority ones are spared: with the UE not contacted too recently and a token
   * left, any other notification is sent whatever its MME asked for.
   */
  lemma ThrottlingSparesOnlyLow(cfg: Config, s: DdnState, c: Candidate, at: int)
    requires Classify(cfg, c) != Low && !Spaced(cfg, s, c, at)
    requires Refill(cfg, MMEOf(cfg, s, c.mme, at), at).tokens > 0
    ensures Decide(cfg, s, c, at).d.action == SendNow
  {
    hide Classify, Refill, Decide;
    DecisionIff(cfg, s, c, at);
  }

  /** High rules come first; an unset bound is 1 or 15, and a rule without any field matches everything. */
  lemma ClassIff(cfg: Config, c: Candidate)
    ensures Classify(cfg, c) == High <==> exists i :: 0 <= i < |cfg.highPriority| && Matches(cfg.highPriority[i], c)
    ensures Classify(cfg, c) == Low <==> Classify(cfg, c) != High && exists i :: 0 <= i < |cfg.lowPriority| && Matches(cfg.lowPriority[i], c)
    ensures Matches(PriorityRule("", 0, 0, 0), c)
    ensures forall n: nat | n > 0 :: Matches(PriorityRule("", 0, n, 0), c) <==> n <= c.arpPriority <= 15
    ensures forall n: nat | n > 0 :: Matches(PriorityRule("", 0, 0, n), c) <==> 1 <= c.arpPriority <= n
    ensures forall n: nat | n > 0 :: Matches(PriorityRule("", n, 0, 0), c) <==> c.qci == n
    ensures forall r: PriorityRule | r.arpMin > r.arpMax > 0 :: !Matches(r, c)
  {
  }

  /** Access point names match as wholes, and only the case of the letters A to Z does not matter. */
  lemma NamesMatch(c: Candidate, i: nat, x: char, rest: string)
    requires i < |c.apn| && x != c.apn[i] && rest != ""
    ensures Matches(PriorityRule(c.apn[i := x], 0, 0, 0), c) <==>
            ('A' <= x <= 'Z' && c.apn[i] == x + ' ') || ('A' <= c.apn[i] <= 'Z' && x == c.apn[i] + ' ')
    ensures !Matches(PriorityRule(c.apn + rest, 0, 0, 0), c)
  {
    assert c.apn[i := x][i] == x;
  }

  // ---- Counters ---------------------------------------------------------------

  /** How many decisions of a run went to a given MME with a given action. */
  function CountMME(cfg: Config, es: seq<Event>, addr: string, a: Action): nat {
    if es == [] then 0
    else
      var k := |es| - 1;
      CountMME(cfg, es[..k], addr, a) +
      if es[k].Decided? && es[k].c.mme == addr && DecisionAt(cfg, es, k).action == a then 1 else 0
  }

  function CountUE(cfg: Config, es: seq<Event>, imsi: string, a: Action): nat {
    if es == [] then 0
    else
      var k := |es| - 1;
      CountUE(cfg, es[..k], imsi, a) +
      if es[k].Decided? && es[k].c.imsi == imsi && DecisionAt(cfg, es, k).action == a then 1 else 0
  }

  /** Each MME's and each UE's counters are exactly the numbers of its decisions, action by action. */
  lemma {:induction false} CountersAreExact(cfg: Config, es: seq<Event>, addr: string, imsi: string)
    ensures var m := MMEOf(cfg, Run(cfg, es), addr, 0);
            && m.sent == CountMME(cfg, es, addr, SendNow)
            && m.delayed == CountMME(cfg, es, addr, Delay)
            && m.suppressed == CountMME(cfg, es, addr, Suppress)
    ensures var u := UEOf(Run(cfg, es), imsi);
            && u.sent == CountUE(cfg, es, imsi, SendNow)
            && u.delayed == CountUE(cfg, es, imsi, Delay)
            && u.suppressed == CountUE(cfg, es, imsi, Suppress)
  {
    if es != [] {
      var s, e := Run(cfg, es[..|es| - 1]), es[|es| - 1];
      CountersAreExact(cfg, es[..|es| - 1], addr, imsi);
      if e.Decided? {
        DecideCounts(cfg, MMEOf(cfg, s, e.c.mme, e.at), UEOf(s, e.c.imsi), e.c, e.at);
      }
      hide DecideFor;
    }
  }

  /** How many high-priority notifications of a run were sent to a given MME. */
  function CountHigh(cfg: Config, es: seq<Event>, addr: string): nat {
    if es == [] then 0
    else
      var k := |es| - 1;
      CountHigh(cfg, es[..k], addr) +
      if es[k].Decided? && es[k].c.mme == addr && DecisionAt(cfg, es, k).action == SendNow && Classify(cfg, es[k].c) == High then 1 else 0
  }

  /** The bypass counter counts every high-priority send while bypassing is on, with a token or without. */
  lemma {:induction false} BypassCountIsExact(cfg: Config, es: seq<Event>, addr: string)
    ensures MMEOf(cfg, Run(cfg, es), addr, 0).highPriorityBypassed == if cfg.highPriorityBypass then CountHigh(cfg, es, addr) else 0
  {
    if es != [] {
      var s, e := Run(cfg, es[..|es| - 1]), es[|es| - 1];
      BypassCountIsExact(cfg, es[..|es| - 1], addr);
      if e.Decided? {
        DecisionRecords(cfg, s, e.c, e.at);
      }
      hide DecideFor, Classify;
    }
  }

  /** A decision bumps the one counter of its MME and of its UE that names its action. */
  lemma DecideCounts(cfg: Config, m: MMEState, u: UEState, c: Candidate, at: int)
    ensures var o := DecideFor(cfg, m, u, c, at);
            && o.m.sent == m.sent + (if o.d.action == SendNow then 1 else 0)
            && o.m.delayed == m.delayed + (if o.d.action == Delay then 1 else 0)
            && o.m.suppressed == m.suppressed + (if o.d.action == Suppress then 1 else 0)
            && o.u.sent == u.sent + (if o.d.action == SendNow then 1 else 0)
            && o.u.delayed == u.delayed + (if o.d.action == Delay then 1 else 0)
            && o.u.suppressed == u.suppressed + (if o.d.action == Suppress then 1 else 0)
            && o.u.lastDDNAt == (if o.d.action == SendNow then at else u.lastDDNAt)
  {
  }

  /** The sum of a table of tallies. */
  ghost function Sum(tallies: map<string, nat>): nat {
    if tallies == map[] then 0
    else
      var k :| k in tallies;
      tallies[k] + Sum(tallies - {k})
  }

  lemma {:induction false} SumWithout(tallies: map<string, nat>, k: string)
    requires k in tallies
    ensures Sum(tallies) == tallies[k] + Sum(tallies - {k})
    decreases |tallies|
  {
    var x :| x in tallies && Sum(tallies) == tallies[x] + Sum(tallies - {x});
    if x != k {
      assert (tallies - {x}).Keys == tallies.Keys - {x} && (tallies - {k}).Keys == tallies.Keys - {k};
      SumWithout(tallies - {x}, k);
      SumWithout(tallies - {k}, x);
      assert tallies - {x} - {k} == tallies - {k} - {x};
    }
  }

  lemma SumWith(tallies: map<string, nat>, k: string, v: nat)
    ensures Sum(tallies[k := v]) == Sum(tallies - {k}) + v
    ensures Sum(tallies) == Sum(tallies - {k}) + if k in tallies then tallies[k] else 0
  {
    SumWithout(tallies[k := v], k);
    assert tallies[k := v] - {k} == tallies - {k};
    if k in tallies {
      SumWithout(tallies, k);
    } else {
      assert tallies - {k} == tallies;
    }
  }

  function MMETallies(mmes: map<string, MMEState>): map<string, nat> {
    map a | a in mmes :: mmes[a].sent + mmes[a].delayed + mmes[a].suppressed
  }

  function UETallies(ues: map<string, UEState>): map<string, nat> {
    map i | i in ues :: ues[i].sent + ues[i].delayed + ues[i].suppressed
  }

  function Decisions(es: seq<Event>): nat {
    if es == [] then 0 else Decisions(es[..|es| - 1]) + if es[|es| - 1].Decided? then 1 else 0
  }

  /** Over any run, the totals kept per MME and the totals kept per UE both add up to the number of decisions. */
  lemma {:induction false} TotalsAreDecisions(cfg: Config, es: seq<Event>)
    ensures Sum(MMETallies(Run(cfg, es).mmes)) == Decisions(es)
    ensures Sum(UETallies(Run(cfg, es).ues)) == Decisions(es)
  {
    hide Decide, DecideFor, Sum;
    if es == [] {
      EmptySum();
    } else {
      var s, e := Run(cfg, es[..|es| - 1]), es[|es| - 1];
      TotalsAreDecisions(cfg, es[..|es| - 1]);
      if e.Decided? {
        DecisionTallies(cfg, s, e);
      } else {
        NoticeTallies(cfg, s, e);
      }
    }
  }

  lemma EmptySum()
    ensures Sum(map[]) == 0 && MMETallies(map[]) == map[] && UETallies(map[]) == map[]
  {
  }

  lemma DecisionTallies(cfg: Config, s: DdnState, e: Event)
    requires e.Decided?
    ensures Sum(MMETallies(Step(cfg, s, e).mmes)) == Sum(MMETallies(s.mmes)) + 1
    ensures Sum(UETallies(Step(cfg, s, e).ues)) == Sum(UETallies(s.ues)) + 1
  {
    hide DecideFor, Sum;
    var m, u := MMEOf(cfg, s, e.c.mme, e.at), UEOf(s, e.c.imsi);
    var o := DecideFor(cfg, m, u, e.c, e.at);
    DecideCounts(cfg, m, u, e.c, e.at);
    var mv, uv := o.m.sent + o.m.delayed + o.m.suppressed, o.u.sent + o.u.delayed + o.u.suppressed;
    SumWith(MMETallies(s.mmes), e.c.mme, mv);
    SumWith(UETallies(s.ues), e.c.imsi, uv);
    assert MMETallies(s.mmes[e.c.mme := o.m]) == MMETallies(s.mmes)[e.c.mme := mv];
    assert UETallies(s.ues[e.c.imsi := o.u]) == UETallies(s.ues)[e.c.imsi := uv];
  }

  lemma NoticeTallies(cfg: Config, s: DdnState, e: Event)
    requires e.Throttled?
    ensures Sum(MMETallies(Step(cfg, s, e).mmes)) == Sum(MMETallies(s.mmes)) && Step(cfg, s, e).ues == s.ues
  {
    hide Sum;
    var m := Step(cfg, s, e).mmes[e.mme];
    var mv := m.sent + m.delayed + m.suppressed;
    SumWith(MMETallies(s.mmes), e.mme, mv);
    assert MMETallies(Step(cfg, s, e).mmes) == MMETallies(s.mmes)[e.mme := mv];
  }

  // ---- Bucket bounds ----------------------------------------------------------

  /** Positive settings of the width the source gives them. */
  predicate InRange(cfg: Config) {
    cfg.enabled && 0 < cfg.rate <= INT64_MAX && 0 < cfg.burst <= INT64_MAX
  }

  /** No interval earns so much that adding it to a full bucket leaves 64 bits: any rate up to some 10^9 a second. */
  predicate Modest(cfg: Config) {
    cfg.burst + INT64_MAX * cfg.rate / SECOND <= INT64_MAX
  }

  predicate ValidConfig(cfg: Config) {
    InRange(cfg) && Modest(cfg)
  }

  predicate BucketValid(cfg: Config, m: MMEState) {
    0 <= m.tokens <= m.burst == cfg.burst && m.rate == cfg.rate
  }

  /** The refill multiplies earned tokens by a second in 64 bits: this many fit. */
  const MAX_EARNED: int := INT64_MAX / SECOND

  predicate RefillFits(cfg: Config, m: MMEState, at: int) {
    at <= m.lastRefillAt || Earned(cfg.rate, m.lastRefillAt, at) <= MAX_EARNED
  }

  lemma DivBounds(x: int, d: int)
    requires d > 0
    ensures d * (x / d) <= x < d * (x / d) + d
  {
  }

  lemma WrapBelow(x: int)
    requires x >= 0
    ensures Wrap64(x) <= x && -INT64_MAX - 1 <= Wrap64(x) <= INT64_MAX
    ensures x <= INT64_MAX ==> Wrap64(x) == x
    ensures x > INT64_MAX ==> Wrap64(x) <= x - INT64_RANGE
  {
  }

  /** How far one refill moves the clock of the bucket. */
  function ClockMove(rate: int, add: int): int
    requires rate > 0
  {
    TruncDiv(Wrap64(add * SECOND), rate)
  }

  /**
   * Exact condition for a refill to charge time for the tokens it adds, up to one
   * nanosecond of rounding: the 64-bit product must not wrap.
   */
  lemma RefillChargesIffFits(rate: int, add: int)
    requires 0 < rate <= INT64_MAX && add > 0
    ensures SECOND * add <= rate * (ClockMove(rate, add) + 1) <==> add <= MAX_EARNED
    ensures rate * ClockMove(rate, add) <= SECOND * add
    ensures SECOND % rate == 0 && add <= MAX_EARNED ==> rate * ClockMove(rate, add) == SECOND * add
  {
    hide TruncDiv, Wrap64;
    var x, w, q := SECOND * add, Wrap64(SECOND * add), ClockMove(rate, add);
    assert q == TruncDiv(Wrap64(add * SECOND), rate);
    WrapBelow(x);
    TruncBounds(w, rate);
    assert rate * (q + 1) == rate * q + rate;
    if SECOND % rate == 0 && add <= MAX_EARNED {
      ExactDivision(SECOND, rate, add);
    }
  }

  lemma TruncBounds(w: int, d: int)
    requires d > 0
    ensures w >= 0 ==> d * TruncDiv(w, d) <= w < d * TruncDiv(w, d) + d
    ensures w < 0 ==> w <= d * TruncDiv(w, d) < w + d
  {
    if w >= 0 {
      DivBounds(w, d);
    } else {
      DivBounds(-w, d);
      assert d * TruncDiv(w, d) == -(d * (-w / d));
    }
  }

  lemma ExactDivision(s: int, d: int, k: int)
    requires d > 0 && s % d == 0 && s * k >= 0
    ensures d * TruncDiv(s * k, d) == s * k
  {
    var n := s / d;
    assert s == d * n;
    assert s * k == d * (n * k);
    MultipleDivides(n * k, d);
  }

  lemma MultipleDivides(n: int, d: int)
    requires d > 0
    ensures d * n / d == n
  {
    DivBounds(d * n, d);
    var q := d * n / d;
    CancelBelow(d, q, n);
    CancelBelow(d, n, q);
  }

  lemma CancelBelow(d: int, a: int, b: int)
    requires d > 0 && d * a < d * b + d
    ensures a <= b
  {
    assert d * (a - b - 1) == d * a - d * b - d;
  }

  /** The clock moves by no more than the time that passed. */
  lemma ClockMoveBelowElapsed(rate: int, last: int, at: int)
    requires 0 < rate <= INT64_MAX && last < at && Earned(rate, last, at) > 0
    ensures ClockMove(rate, Earned(rate, last, at)) <= at - last
  {
    var elapsed := Elapsed(last, at);
    var add := Earned(rate, last, at);
    DivBounds(elapsed * rate, SECOND);
    RefillChargesIffFits(rate, add);
    assert rate * elapsed == elapsed * rate;
    CancelBelow(rate, ClockMove(rate, add), elapsed);
  }

  /**
   * Exactly when one refill leaves the tokens between zero and the burst, for every setting:
   * it adds nothing, or the sum stays within 64 bits. The clock never passes the present.
   */
  lemma RefillKeepsTokensIff(cfg: Config, m: MMEState, at: int)
    requires InRange(cfg) && BucketValid(cfg, m) && m.lastRefillAt <= at
    ensures var r := Refill(cfg, m, at);
            && (0 <= r.tokens <= cfg.burst <==>
                 !Refilled(cfg, m, at) || m.tokens + Earned(cfg.rate, m.lastRefillAt, at) <= INT64_MAX)
            && r.burst == cfg.burst && r.rate == cfg.rate && r.lastRefillAt <= at
  {
    hide Earned, TruncDiv, Wrap64;
    if Refilled(cfg, m, at) {
      var add := Earned(cfg.rate, m.lastRefillAt, at);
      EarnedIsInt64(cfg.rate, m.lastRefillAt, at);
      WrapBelow(m.tokens + add);
      ClockMoveBelowElapsed(cfg.rate, m.lastRefillAt, at);
    }
  }

  lemma EarnedIsInt64(rate: int, last: int, at: int)
    ensures Earned(rate, last, at) <= INT64_MAX
  {
  }

  /** A full bucket of the largest size is emptied below zero by one earned token. */
  lemma FullBucketWraps(cfg: Config, m: MMEState)
    requires InRange(cfg) && cfg.rate == 1 && cfg.burst == INT64_MAX && BucketValid(cfg, m)
    requires m.tokens == cfg.burst && m.lastRefillAt == 1
    ensures Refill(cfg, m, SECOND + 1).tokens == -INT64_MAX - 1
  {
    assert Earned(1, 1, SECOND + 1) == 1;
    assert Wrap64(INT64_MAX + 1) == -INT64_MAX - 1;
    hide Earned, TruncDiv, Wrap64;
  }

  lemma ModestEarns(cfg: Config, last: int, at: int)
    requires ValidConfig(cfg) && last < at
    ensures Earned(cfg.rate, last, at) == Elapsed(last, at) * cfg.rate / SECOND
    ensures cfg.burst + Earned(cfg.rate, last, at) <= INT64_MAX
  {
    ScaleUp(cfg.rate, Elapsed(last, at), INT64_MAX);
    DivMonotone(Elapsed(last, at) * cfg.rate, INT64_MAX * cfg.rate, SECOND);
  }

  lemma DivMonotone(x: int, y: int, d: int)
    requires d > 0 && x <= y
    ensures x / d <= y / d
  {
    DivBounds(x, d);
    DivBounds(y, d);
    CancelBelow(d, x / d, y / d);
  }

  /** With a modest setting tokens stay within the bucket, and its clock never passes the present. */
  lemma RefillKeepsBucket(cfg: Config, m: MMEState, at: int)
    requires ValidConfig(cfg) && BucketValid(cfg, m) && m.lastRefillAt <= at
    ensures var r := Refill(cfg, m, at);
            0 <= r.tokens <= r.burst == cfg.burst && r.rate == cfg.rate && r.lastRefillAt <= at
  {
    hide Earned, Refill;
    RefillKeepsTokensIff(cfg, m, at);
    if m.lastRefillAt < at {
      ModestEarns(cfg, m.lastRefillAt, at);
    }
  }

  /**
   * What a refill earns with a modest setting: rate tokens a second, rounded down and cut off
   * at the burst, the clock moving on by the time those tokens took.
   */
  lemma RefillEarns(cfg: Config, m: MMEState, at: int)
    requires ValidConfig(cfg) && BucketValid(cfg, m) && 0 != m.lastRefillAt <= at
    ensures var elapsed := if at - m.lastRefillAt > INT64_MAX then INT64_MAX else at - m.lastRefillAt;
            var earned, r := elapsed * cfg.rate / SECOND, Refill(cfg, m, at);
            && r.tokens == (if m.tokens + earned > cfg.burst then cfg.burst else m.tokens + earned)
            && (earned <= MAX_EARNED ==> r.lastRefillAt == m.lastRefillAt + earned * SECOND / cfg.rate)
  {
    if at == m.lastRefillAt {
      NothingEarned(cfg.rate);
    } else {
      ModestEarns(cfg, m.lastRefillAt, at);
      EarnedForward(cfg, m, at, Elapsed(m.lastRefillAt, at) * cfg.rate / SECOND);
    }
  }

  lemma NothingEarned(rate: int)
    requires rate > 0
    ensures 0 * rate / SECOND == 0 && 0 * SECOND / rate == 0
  {
    MultipleDivides(0, rate);
  }

  lemma EarnedForward(cfg: Config, m: MMEState, at: int, earned: int)
    requires InRange(cfg) && BucketValid(cfg, m) && m.lastRefillAt != 0 && m.lastRefillAt < at
    requires earned == Earned(cfg.rate, m.lastRefillAt, at) >= 0 && cfg.burst + earned <= INT64_MAX
    ensures var r := Refill(cfg, m, at);
            && r.tokens == (if m.tokens + earned > cfg.burst then cfg.burst else m.tokens + earned)
            && (earned <= MAX_EARNED ==> r.lastRefillAt == m.lastRefillAt + earned * SECOND / cfg.rate)
  {
    hide Earned, Wrap64, TruncDiv;
    WrapBelow(m.tokens + earned);
    WrapBelow(earned * SECOND);
    NothingEarned(cfg.rate);
    assert earned <= MAX_EARNED ==> TruncDiv(earned * SECOND, cfg.rate) == earned * SECOND / cfg.rate by {
      TruncForward(earned * SECOND, cfg.rate);
    }
  }

  lemma TruncForward(x: int, d: int)
    requires x >= 0 && d > 0
    ensures TruncDiv(x, d) == x / d
  {
  }

  /** One refill, as a charge: tokens gained are paid for by clock time plus a nanosecond. */
  lemma RefillCharge(cfg: Config, m: MMEState, at: int)
    requires ValidConfig(cfg) && BucketValid(cfg, m) && m.lastRefillAt <= at
    requires RefillFits(cfg, m, at)
    ensures var r := Refill(cfg, m, at);
            var k := if Refilled(cfg, m, at) then 1 else 0;
            && SECOND * (r.tokens - m.tokens) <= cfg.rate * (r.lastRefillAt - m.lastRefillAt + k)
            && r.lastRefillAt >= m.lastRefillAt
            && (SECOND % cfg.rate == 0 ==>
                 SECOND * (r.tokens - m.tokens) <= cfg.rate * (r.lastRefillAt - m.lastRefillAt))
  {
    hide Earned, TruncDiv, Wrap64;
    var add := Earned(cfg.rate, m.lastRefillAt, at);
    var gained := Refill(cfg, m, at).tokens - m.tokens;
    if Refilled(cfg, m, at) {
      RefillChargesIffFits(cfg.rate, add);
      FittingMoveIsForward(cfg.rate, add);
      assert Refill(cfg, m, at).lastRefillAt - m.lastRefillAt == ClockMove(cfg.rate, add);
      WrapBelow(m.tokens + add);
      assert SECOND * gained <= SECOND * add;
    } else {
      assert gained <= 0;
    }
  }

  lemma FittingMoveIsForward(rate: int, add: int)
    requires rate > 0 && 0 < add <= MAX_EARNED
    ensures ClockMove(rate, add) >= 0
  {
    WrapBelow(add * SECOND);
  }

  /** Whether a refill at this time adds tokens. */
  predicate Refilled(cfg: Config, m: MMEState, at: int) {
    m.lastRefillAt != 0 && at > m.lastRefillAt && Earned(EffectiveRate(cfg), m.lastRefillAt, at) > 0
  }

  /**
   * A wrapped product breaks the charge: with rate 1000 and burst 5, after ten million idle
   * seconds the bucket fills twice at one instant while its clock runs backwards.
   */
  lemma OverflowRefillsTwice(cfg: Config, m: MMEState)
    requires cfg.rate == 1000 && cfg.burst == 5 && BucketValid(cfg, m) && m.lastRefillAt == 1
    ensures var at := 10_000_000 * SECOND + 1;
            var full := Refill(cfg, m, at);
            var again := Refill(cfg, full.(tokens := 0), at);
            && !RefillFits(cfg, m, at)
            && full.tokens == 5 && full.lastRefillAt < m.lastRefillAt
            && again.tokens == 5 && again.lastRefillAt < full.lastRefillAt
  {
    var at := 10_000_000 * SECOND + 1;
    assert Earned(1000, 1, at) == 10_000_000_000;
    assert Wrap64(10_000_000_000 * SECOND) == -8_446_744_073_709_551_616;
    var last := 1 - 8_446_744_073_709_551;
    assert Refill(cfg, m, at).lastRefillAt == last;
    assert Earned(1000, last, at) == 18_446_744_073;
    assert Wrap64(18_446_744_073 * SECOND) == -709_551_616;
    hide Earned, Wrap64;
  }

  // ---- Bucket bounds over runs ------------------------------------------------

  function Bucket(cfg: Config, es: seq<Event>, addr: string, k: nat): MMEState
    requires k < |es|
  {
    MMEOf(cfg, Run(cfg, es[..k]), addr, es[k].at)
  }

  predicate DecidedFor(es: seq<Event>, addr: string, k: nat)
    requires k < |es|
  {
    es[k].Decided? && es[k].c.mme == addr
  }

  predicate PaidSend(cfg: Config, es: seq<Event>, addr: string, k: nat)
    requires k < |es|
  {
    DecidedFor(es, addr, k) && DecisionAt(cfg, es, k).action == SendNow && !DecisionAt(cfg, es, k).bypass
  }

  /** Token-paid sends to one MME from event lo on. */
  function Paid(cfg: Config, es: seq<Event>, addr: string, lo: nat): nat {
    if |es| <= lo then 0
    else Paid(cfg, es[..|es| - 1], addr, lo) + if PaidSend(cfg, es, addr, |es| - 1) then 1 else 0
  }

  /** Refills of one MME's bucket from event lo on. */
  function Refills(cfg: Config, es: seq<Event>, addr: string, lo: nat): nat {
    if |es| <= lo then 0
    else
      var k := |es| - 1;
      Refills(cfg, es[..k], addr, lo) +
      if DecidedFor(es, addr, k) && Refilled(cfg, Bucket(cfg, es, addr, k), es[k].at) then 1 else 0
  }

  predicate AllRefillsFit(cfg: Config, es: seq<Event>, addr: string, lo: nat) {
    forall k :: lo <= k < |es| && DecidedFor(es, addr, k) ==> RefillFits(cfg, Bucket(cfg, es, addr, k), es[k].at)
  }

  /** A decision spends at most one token of the refilled bucket, and only when it sends without bypass. */
  lemma DecideSpends(cfg: Config, m: MMEState, u: UEState, c: Candidate, at: int)
    requires ValidConfig(cfg) && 0 <= Refill(cfg, m, at).tokens
    ensures var o, r := DecideFor(cfg, m, u, c, at), Refill(cfg, m, at);
            && o.m.lastRefillAt == r.lastRefillAt && o.m.burst == r.burst && o.m.rate == r.rate
            && o.m.tokens == r.tokens - (if o.d.action == SendNow && !o.d.bypass then 1 else 0)
            && o.m.tokens >= 0
  {
    hide Refill, Classify;
  }

  /** At every point of a run, tokens lie in 0..burst and the bucket clock is not ahead of time. */
  lemma {:induction false} BucketInvariant(cfg: Config, es: seq<Event>, addr: string)
    requires ValidConfig(cfg) && InOrder(es) && addr in Run(cfg, es).mmes
    ensures es != [] && BucketValid(cfg, Run(cfg, es).mmes[addr])
    ensures Run(cfg, es).mmes[addr].lastRefillAt <= es[|es| - 1].at
  {
    RunPrefix(cfg, es);
    var k := |es| - 1;
    var m := Bucket(cfg, es, addr, k);
    if addr in Run(cfg, es[..k]).mmes {
      BucketInvariant(cfg, es[..k], addr);
      assert es[k - 1].at <= es[k].at;
    }
    if DecidedFor(es, addr, k) {
      RefillKeepsBucket(cfg, m, es[k].at);
      DecideSpends(cfg, m, UEOf(Run(cfg, es[..k]), es[k].c.imsi), es[k].c, es[k].at);
    }
    hide DecideFor, Refill;
  }

  /** Nanoseconds lost to rounding over k refills: one each, unless the rate divides a second. */
  function Rounding(rate: int, k: int): int {
    if rate > 0 && SECOND % rate == 0 then 0 else k
  }

  /** What a bucket has left to spend once its clock moved by dt over k refills. */
  function Slack(rate: int, spent: int, dt: int, k: int): int {
    rate * (dt + Rounding(rate, k)) - SECOND * spent
  }

  lemma SlackAdds(rate: int, s1: int, t1: int, k1: int, s2: int, t2: int, k2: int)
    ensures Slack(rate, s1 + s2, t1 + t2, k1 + k2) == Slack(rate, s1, t1, k1) + Slack(rate, s2, t2, k2)
  {
    var x1, x2 := t1 + Rounding(rate, k1), t2 + Rounding(rate, k2);
    assert rate * (x1 + x2) == rate * x1 + rate * x2;
  }

  /** The charge of one decision to the bucket it uses. */
  lemma DecisionCharge(cfg: Config, m: MMEState, u: UEState, c: Candidate, at: int)
    requires ValidConfig(cfg) && BucketValid(cfg, m) && m.lastRefillAt <= at && RefillFits(cfg, m, at)
    ensures var o := DecideFor(cfg, m, u, c, at);
            && m.lastRefillAt <= o.m.lastRefillAt
            && 0 <= Slack(cfg.rate, (if o.d.action == SendNow && !o.d.bypass then 1 else 0) + o.m.tokens - m.tokens,
                          o.m.lastRefillAt - m.lastRefillAt, if Refilled(cfg, m, at) then 1 else 0)
  {
    RefillKeepsBucket(cfg, m, at);
    RefillCharge(cfg, m, at);
    DecideSpends(cfg, m, u, c, at);
    hide Refill, Refilled, DecideFor, RefillFits, BucketValid;
  }

  /**
   * The budget of one bucket over any stretch of a run: paid sends are covered by the
   * tokens drawn down plus the rate times the clock time charged.
   */
  lemma {:induction false} WindowBudget(cfg: Config, es: seq<Event>, addr: string, lo: nat)
    requires ValidConfig(cfg) && InOrder(es) && lo <= |es| && AllRefillsFit(cfg, es, addr, lo)
    requires addr in Run(cfg, es[..lo]).mmes
    ensures addr in Run(cfg, es).mmes
    ensures var m0, m1 := Run(cfg, es[..lo]).mmes[addr], Run(cfg, es).mmes[addr];
            && m0.lastRefillAt <= m1.lastRefillAt
            && 0 <= Slack(cfg.rate, Paid(cfg, es, addr, lo) + m1.tokens - m0.tokens,
                          m1.lastRefillAt - m0.lastRefillAt, Refills(cfg, es, addr, lo))
  {
    hide Slack, InOrder, AllRefillsFit, Run, Paid, Refills, ValidConfig;
    if |es| == lo {
      assert es[..lo] == es;
      NothingSpent(cfg, es, addr);
    } else {
      var prefix := es[..|es| - 1];
      assert prefix[..lo] == es[..lo];
      RunPrefix(cfg, es);
      PrefixFits(cfg, es, addr, lo);
      WindowBudget(cfg, prefix, addr, lo);
      BudgetStep(cfg, es, addr, lo);
      var m0, m1, m2 := Run(cfg, es[..lo]).mmes[addr], Run(cfg, prefix).mmes[addr], Run(cfg, es).mmes[addr];
      SlackAdds(cfg.rate,
        Paid(cfg, prefix, addr, lo) + m1.tokens - m0.tokens, m1.lastRefillAt - m0.lastRefillAt, Refills(cfg, prefix, addr, lo),
        Paid(cfg, es, addr, lo) - Paid(cfg, prefix, addr, lo) + m2.tokens - m1.tokens, m2.lastRefillAt - m1.lastRefillAt,
        Refills(cfg, es, addr, lo) - Refills(cfg, prefix, addr, lo));
    }
  }

  lemma NothingSpent(cfg: Config, es: seq<Event>, addr: string)
    ensures Paid(cfg, es, addr, |es|) == 0 && Refills(cfg, es, addr, |es|) == 0
    ensures Slack(cfg.rate, 0, 0, 0) == 0
  {
  }

  /** The charge of the last event of a run to one existing bucket. */
  lemma BudgetStep(cfg: Config, es: seq<Event>, addr: string, lo: nat)
    requires ValidConfig(cfg) && InOrder(es) && lo < |es| && AllRefillsFit(cfg, es, addr, lo)
    requires addr in Run(cfg, es[..|es| - 1]).mmes
    ensures addr in Run(cfg, es).mmes
    ensures var m1, m2 := Run(cfg, es[..|es| - 1]).mmes[addr], Run(cfg, es).mmes[addr];
            && m1.lastRefillAt <= m2.lastRefillAt
            && 0 <= Slack(cfg.rate, Paid(cfg, es, addr, lo) - Paid(cfg, es[..|es| - 1], addr, lo) + m2.tokens - m1.tokens,
                          m2.lastRefillAt - m1.lastRefillAt,
                          Refills(cfg, es, addr, lo) - Refills(cfg, es[..|es| - 1], addr, lo))
  {
    hide Slack, Refilled, DecideFor, InOrder, Run, Paid, Refills, RefillFits, AllRefillsFit;
    var k := |es| - 1;
    var prefix := es[..k];
    LastInOrder(es);
    BucketInvariant(cfg, prefix, addr);
    LastStep(cfg, es, addr, lo);
    if DecidedFor(es, addr, k) {
      LastFits(cfg, es, addr, lo);
      DecisionCharge(cfg, Run(cfg, prefix).mmes[addr], UEOf(Run(cfg, prefix), es[k].c.imsi), es[k].c, es[k].at);
    } else {
      SlackAdds(cfg.rate, 0, 0, 0, 0, 0, 0);
    }
  }

  lemma LastInOrder(es: seq<Event>)
    requires InOrder(es) && es != []
    ensures InOrder(es[..|es| - 1]) && (|es| > 1 ==> es[|es| - 2].at <= es[|es| - 1].at)
  {
  }

  lemma LastFits(cfg: Config, es: seq<Event>, addr: string, lo: nat)
    requires AllRefillsFit(cfg, es, addr, lo) && lo < |es| && DecidedFor(es, addr, |es| - 1)
    ensures RefillFits(cfg, Bucket(cfg, es, addr, |es| - 1), es[|es| - 1].at)
  {
    hide Bucket, RefillFits;
  }

  /** How the last event of a run changes an existing bucket and its two tallies. */
  lemma LastStep(cfg: Config, es: seq<Event>, addr: string, lo: nat)
    requires lo < |es| && addr in Run(cfg, es[..|es| - 1]).mmes
    ensures addr in Run(cfg, es).mmes
    ensures var k := |es| - 1;
            var s, paid, refills := Run(cfg, es[..k]), Paid(cfg, es[..k], addr, lo), Refills(cfg, es[..k], addr, lo);
            var m1, m2 := s.mmes[addr], Run(cfg, es).mmes[addr];
            if DecidedFor(es, addr, k) then
              var o := DecideFor(cfg, m1, UEOf(s, es[k].c.imsi), es[k].c, es[k].at);
              && m2 == o.m
              && Paid(cfg, es, addr, lo) == paid + (if o.d.action == SendNow && !o.d.bypass then 1 else 0)
              && Refills(cfg, es, addr, lo) == refills + if Refilled(cfg, m1, es[k].at) then 1 else 0
            else
              && m2.tokens == m1.tokens && m2.lastRefillAt == m1.lastRefillAt
              && Paid(cfg, es, addr, lo) == paid && Refills(cfg, es, addr, lo) == refills
  {
    RunPrefix(cfg, es);
    hide Refilled, DecideFor;
  }

  lemma PrefixFits(cfg: Config, es: seq<Event>, addr: string, lo: nat)
    requires es != [] && AllRefillsFit(cfg, es, addr, lo)
    ensures AllRefillsFit(cfg, es[..|es| - 1], addr, lo)
  {
    var prefix := es[..|es| - 1];
    hide RefillFits;
    forall k | lo <= k < |prefix| && DecidedFor(prefix, addr, k)
      ensures RefillFits(cfg, Bucket(cfg, prefix, addr, k), prefix[k].at)
    {
      assert prefix[..k] == es[..k] && DecidedFor(es, addr, k);
    }
  }

  /** The same budget up to the present: what is left at the end was not spent. */
  lemma StretchBudget(cfg: Config, es: seq<Event>, addr: string, lo: nat)
    requires ValidConfig(cfg) && InOrder(es) && es != [] && lo <= |es| && AllRefillsFit(cfg, es, addr, lo)
    requires addr in Run(cfg, es[..lo]).mmes
    ensures var m := Run(cfg, es[..lo]).mmes[addr];
            0 <= Slack(cfg.rate, Paid(cfg, es, addr, lo) - m.tokens, es[|es| - 1].at - m.lastRefillAt, Refills(cfg, es, addr, lo))
  {
    hide Run, AllRefillsFit, InOrder, Paid, Refills, Slack;
    WindowBudget(cfg, es, addr, lo);
    BucketInvariant(cfg, es, addr);
    var m0, m, k := Run(cfg, es[..lo]).mmes[addr], Run(cfg, es).mmes[addr], Refills(cfg, es, addr, lo);
    SlackGrows(cfg.rate, Paid(cfg, es, addr, lo) + m.tokens - m0.tokens, m.lastRefillAt - m0.lastRefillAt, k,
               m.tokens, es[|es| - 1].at - m.lastRefillAt);
  }

  lemma SlackGrows(rate: int, spent: int, dt: int, k: int, saved: nat, more: nat)
    requires rate > 0 && 0 <= Slack(rate, spent, dt, k)
    ensures 0 <= Slack(rate, spent - saved, dt + more, k)
  {
    SlackAdds(rate, spent, dt, k, 0 - (saved as int), more, 0);
    ScaleUp(rate, 0, more);
  }

  /** Splits the first event off the paid sends of a stretch. */
  lemma {:induction false} PaidSplit(cfg: Config, es: seq<Event>, addr: string, lo: nat)
    requires lo < |es|
    ensures Paid(cfg, es, addr, lo) == Paid(cfg, es, addr, lo + 1) + if PaidSend(cfg, es, addr, lo) then 1 else 0
  {
    if lo + 1 < |es| {
      var prefix := es[..|es| - 1];
      PaidSplit(cfg, prefix, addr, lo);
      assert prefix[..lo] == es[..lo];
      hide Run, DecideFor;
    } else {
      assert Paid(cfg, es[..lo], addr, lo) == 0;
    }
  }

  /** The event at which a run first sees an MME and gives it a full bucket. */
  predicate CreatesBucket(cfg: Config, es: seq<Event>, addr: string, c: nat) {
    c < |es| && addr !in Run(cfg, es[..c]).mmes && addr in Run(cfg, es[..c + 1]).mmes
  }

  /** The creating event leaves a bucket clocked at its own time and short of at most its own send. */
  lemma CreationBalance(cfg: Config, es: seq<Event>, addr: string, c: nat)
    requires ValidConfig(cfg) && InOrder(es) && CreatesBucket(cfg, es, addr, c)
    ensures var m := Run(cfg, es[..c + 1]).mmes[addr];
            && m.lastRefillAt == es[c].at
            && m.tokens + (if PaidSend(cfg, es, addr, c) then 1 else 0) == cfg.burst
  {
    var upto := es[..c + 1];
    RunPrefix(cfg, upto);
    assert upto[..c] == es[..c] && upto[c] == es[c];
    hide Run;
    if DecidedFor(es, addr, c) {
      DecideSpends(cfg, NewMME(cfg, es[c].at), UEOf(Run(cfg, es[..c]), es[c].c.imsi), es[c].c, es[c].at);
    }
    hide DecideFor;
  }

  /**
   * The rate limit: from the creation of an MME's bucket to the end of any run, the
   * token-paid sends to it are at most the burst plus the rate times the elapsed time,
   * with one nanosecond more per refill unless the rate divides a second.
   */
  lemma RateLimit(cfg: Config, es: seq<Event>, addr: string, c: nat)
    requires ValidConfig(cfg) && InOrder(es) && CreatesBucket(cfg, es, addr, c)
    requires AllRefillsFit(cfg, es, addr, c + 1)
    ensures SECOND * Paid(cfg, es, addr, c) <=
            SECOND * cfg.burst +
            cfg.rate * (es[|es| - 1].at - es[c].at + Rounding(cfg.rate, Refills(cfg, es, addr, c + 1)))
  {
    hide Run, AllRefillsFit, InOrder, PaidSend, Paid, Refills;
    CreationBalance(cfg, es, addr, c);
    StretchBudget(cfg, es, addr, c + 1);
    PaidSplit(cfg, es, addr, c);
  }

  /**
   * No refill can wrap, and so the rate limit holds outright, while the rate times the time
   * since the bucket's creation fits in 64 bits.
   */
  lemma {:induction false} ShortSpanFits(cfg: Config, es: seq<Event>, addr: string, c: nat)
    requires ValidConfig(cfg) && InOrder(es) && CreatesBucket(cfg, es, addr, c)
    requires SpanShort(cfg.rate, es[c].at, es[|es| - 1].at)
    ensures AllRefillsFit(cfg, es, addr, c + 1)
  {
    hide Run, CreatesBucket, SpanShort, InOrder, RefillFits;
    if c + 1 < |es| {
      var k := |es| - 1;
      var prefix := es[..k];
      CreatedBefore(cfg, es, addr, c);
      SpanShrinks(cfg.rate, es[c].at, es[k - 1].at, es[k].at);
      ShortSpanFits(cfg, prefix, addr, c);
      ClockPastCreation(cfg, prefix, addr, c);
      ShortSpanRefillFits(cfg, Bucket(cfg, es, addr, k), es[c].at, es[k].at);
      FitsExtend(cfg, es, addr, c + 1);
    }
  }

  predicate SpanShort(rate: int, from: int, to: int) {
    rate * (to - from) <= INT64_MAX
  }

  lemma SpanShrinks(rate: int, from: int, mid: int, to: int)
    requires rate > 0 && mid <= to && SpanShort(rate, from, to)
    ensures SpanShort(rate, from, mid)
  {
    ScaleUp(rate, mid - from, to - from);
  }

  lemma CreatedBefore(cfg: Config, es: seq<Event>, addr: string, c: nat)
    requires InOrder(es) && CreatesBucket(cfg, es, addr, c) && c + 1 < |es|
    ensures var prefix := es[..|es| - 1];
            InOrder(prefix) && CreatesBucket(cfg, prefix, addr, c) && es[|es| - 2].at <= es[|es| - 1].at
  {
    hide Run;
    var prefix := es[..|es| - 1];
    assert prefix[..c] == es[..c] && prefix[..c + 1] == es[..c + 1];
  }

  lemma ClockPastCreation(cfg: Config, es: seq<Event>, addr: string, c: nat)
    requires ValidConfig(cfg) && InOrder(es) && CreatesBucket(cfg, es, addr, c)
    requires AllRefillsFit(cfg, es, addr, c + 1)
    ensures addr in Run(cfg, es).mmes && es[c].at <= Run(cfg, es).mmes[addr].lastRefillAt
  {
    CreationBalance(cfg, es, addr, c);
    hide Run, InOrder, AllRefillsFit;
    WindowBudget(cfg, es, addr, c + 1);
  }

  lemma ShortSpanRefillFits(cfg: Config, m: MMEState, from: int, to: int)
    requires cfg.rate > 0 && from <= m.lastRefillAt && SpanShort(cfg.rate, from, to)
    ensures RefillFits(cfg, m, to)
  {
    if m.lastRefillAt < to {
      ScaleUp(cfg.rate, to - m.lastRefillAt, to - from);
      EarnedBelow(cfg.rate, m.lastRefillAt, to);
    }
  }

  lemma EarnedBelow(rate: int, last: int, to: int)
    requires rate > 0 && last < to && rate * (to - last) <= INT64_MAX
    ensures Earned(rate, last, to) <= MAX_EARNED
  {
    var span := to - last;
    ScaleUp(span, 1, rate);
    assert span * rate == rate * span && span <= INT64_MAX;
    var x := span * rate;
    assert Elapsed(last, to) == span;
    DivBounds(x, SECOND);
    assert x / SECOND <= MAX_EARNED;
  }

  lemma FitsExtend(cfg: Config, es: seq<Event>, addr: string, lo: nat)
    requires es != [] && AllRefillsFit(cfg, es[..|es| - 1], addr, lo)
    requires RefillFits(cfg, Bucket(cfg, es, addr, |es| - 1), es[|es| - 1].at)
    ensures AllRefillsFit(cfg, es, addr, lo)
  {
    var prefix := es[..|es| - 1];
    hide RefillFits;
    forall k | lo <= k < |es| && DecidedFor(es, addr, k)
      ensures RefillFits(cfg, Bucket(cfg, es, addr, k), es[k].at)
    {
      if k < |prefix| {
        assert prefix[..k] == es[..k] && DecidedFor(prefix, addr, k);
      }
    }
  }

  lemma ScaleUp(r: int, x: int, y: int)
    requires r >= 0 && x <= y
    ensures r * x <= r * y
  {
  }

  /** A refill leaves less than one token and one nanosecond of time unclaimed. */
  lemma RefillResidue(cfg: Config, m: MMEState, at: int)
    requires ValidConfig(cfg) && BucketValid(cfg, m) && m.lastRefillAt <= at
    requires RefillFits(cfg, m, at) && at - m.lastRefillAt <= INT64_MAX
    ensures 0 < Slack(cfg.rate, -1, 1 - (at - Refill(cfg, m, at).lastRefillAt), 0)
  {
    hide TruncDiv, Wrap64, Slack;
    var elapsed := at - m.lastRefillAt;
    var add := Earned(cfg.rate, m.lastRefillAt, at);
    DivBounds(elapsed * cfg.rate, SECOND);
    assert elapsed * cfg.rate == cfg.rate * elapsed;
    if m.lastRefillAt < at {
      ModestEarns(cfg, m.lastRefillAt, at);
    }
    hide Earned;
    if Refilled(cfg, m, at) {
      RefillChargesIffFits(cfg.rate, add);
      ResidueSlack(cfg.rate, elapsed, add, ClockMove(cfg.rate, add));
    } else if m.lastRefillAt == 0 {
      ResidueSlack(cfg.rate, 0, 0, 0);
    } else {
      ResidueSlack(cfg.rate, elapsed, 0, 0);
    }
  }

  lemma ResidueSlack(rate: int, elapsed: int, add: int, move: int)
    requires rate > 0 && rate * elapsed < SECOND * add + SECOND && SECOND * add <= rate * (move + 1)
    ensures 0 < Slack(rate, -1, 1 - (elapsed - move), 0)
  {
    assert rate * (1 - (elapsed - move)) == rate * (move + 1) - rate * elapsed;
  }

  /**
   * The rate limit over any later stretch: after a decision for an MME, further token-paid
   * sends within any span are at most burst + 1 plus the rate times the span.
   */
  lemma SlidingRateLimit(cfg: Config, es: seq<Event>, addr: string, i: nat)
    requires ValidConfig(cfg) && InOrder(es) && i < |es| && DecidedFor(es, addr, i)
    requires AllRefillsFit(cfg, es, addr, i)
    requires es[i].at - Bucket(cfg, es, addr, i).lastRefillAt <= INT64_MAX
    ensures SECOND * Paid(cfg, es, addr, i + 1) <=
            SECOND * (cfg.burst + 1) +
            cfg.rate * (es[|es| - 1].at - es[i].at + Rounding(cfg.rate, Refills(cfg, es, addr, i + 1)) + 1)
  {
    hide Run, AllRefillsFit, InOrder, Paid, Refills, Bucket, DecidedFor;
    SlidingSlack(cfg, es, addr, i);
  }

  /** The same bound, by what the last decision left of the bucket and what the stretch after it spends. */
  lemma SlidingSlack(cfg: Config, es: seq<Event>, addr: string, i: nat)
    requires ValidConfig(cfg) && InOrder(es) && i < |es| && DecidedFor(es, addr, i)
    requires AllRefillsFit(cfg, es, addr, i)
    requires es[i].at - Bucket(cfg, es, addr, i).lastRefillAt <= INT64_MAX
    ensures 0 <= Slack(cfg.rate, Paid(cfg, es, addr, i + 1) - cfg.burst - 1,
                       es[|es| - 1].at - es[i].at + 1, Refills(cfg, es, addr, i + 1))
  {
    hide Run, AllRefillsFit, InOrder, Paid, Refills, Bucket, DecidedFor, Slack, Rounding, RefillFits;
    FitsLater(cfg, es, addr, i);
    SpentBucket(cfg, es, addr, i);
    StretchBudget(cfg, es, addr, i + 1);
    var m := Run(cfg, es[..i + 1]).mmes[addr];
    SlidingArithmetic(cfg.rate, cfg.burst, Paid(cfg, es, addr, i + 1), m.tokens, m.lastRefillAt,
                      es[i].at, es[|es| - 1].at, Refills(cfg, es, addr, i + 1));
  }

  lemma FitsLater(cfg: Config, es: seq<Event>, addr: string, lo: nat)
    requires AllRefillsFit(cfg, es, addr, lo)
    ensures AllRefillsFit(cfg, es, addr, lo + 1)
  {
    hide Bucket, RefillFits;
  }

  lemma SlidingArithmetic(rate: int, burst: int, paid: int, tokens: int, clock: int, from: int, to: int, k: nat)
    requires rate > 0 && tokens <= burst
    requires 0 < Slack(rate, -1, 1 - (from - clock), 0)
    requires 0 <= Slack(rate, paid - tokens, to - clock, k)
    ensures 0 <= Slack(rate, paid - burst - 1, to - from + 1, k)
  {
    SlackAdds(rate, paid - tokens, to - clock, k, -1, 1 - (from - clock), 0);
    SlackAdds(rate, paid - tokens - 1, to - from + 1, k, tokens - burst, 0, 0);
  }

  /** What a decision leaves behind: at most a full bucket and a nearly current clock. */
  lemma SpentBucket(cfg: Config, es: seq<Event>, addr: string, i: nat)
    requires ValidConfig(cfg) && InOrder(es) && i < |es| && DecidedFor(es, addr, i)
    requires AllRefillsFit(cfg, es, addr, i)
    requires es[i].at - Bucket(cfg, es, addr, i).lastRefillAt <= INT64_MAX
    ensures addr in Run(cfg, es[..i + 1]).mmes
    ensures var m := Run(cfg, es[..i + 1]).mmes[addr];
            m.tokens <= cfg.burst && 0 < Slack(cfg.rate, -1, 1 - (es[i].at - m.lastRefillAt), 0)
  {
    var upto := es[..i + 1];
    RunPrefix(cfg, upto);
    assert upto[..i] == es[..i] && upto[i] == es[i];
    var m := Bucket(cfg, es, addr, i);
    if addr in Run(cfg, es[..i]).mmes {
      BucketInvariant(cfg, es[..i], addr);
      assert es[i - 1].at <= es[i].at;
    }
    assert RefillFits(cfg, m, es[i].at);
    hide RefillFits, AllRefillsFit, Refill, DecideFor, Slack;
    RefillKeepsBucket(cfg, m, es[i].at);
    RefillResidue(cfg, m, es[i].at);
    DecideSpends(cfg, m, UEOf(Run(cfg, es[..i]), es[i].c.imsi), es[i].c, es[i].at);
  }

  // ---- Retry delay ------------------------------------------------------------

  /** An empty bucket, already refilled at this time, has a token again after the advertised delay. */
  ghost predicate RetryDelaySuffices(cfg: Config, m: MMEState, at: int)
    requires InRange(cfg) && BucketValid(cfg, m)
  {
    Refill(cfg, m, at + NextTokenDelay(cfg, m)).tokens > 0
  }

  /** The advertised delay, truncated to nanoseconds, is enough for every bucket exactly when the rate divides a second. */
  lemma RetryDelayIffRateDivides(cfg: Config)
    requires InRange(cfg)
    ensures SECOND % cfg.rate == 0 <==>
            (forall m, at :: BucketValid(cfg, m) && m.tokens == 0 && 0 < m.lastRefillAt <= at ==> RetryDelaySuffices(cfg, m, at))
  {
    hide RetryDelaySuffices;
    if SECOND % cfg.rate == 0 {
      forall m, at | BucketValid(cfg, m) && m.tokens == 0 && 0 < m.lastRefillAt <= at
        ensures RetryDelaySuffices(cfg, m, at)
      {
        RetrySuffices(cfg, m, at);
      }
    } else {
      RetryFallsShort(cfg);
      var m := NewMME(cfg, 1).(tokens := 0);
      assert !RetryDelaySuffices(cfg, m, 1);
    }
  }

  lemma RetrySuffices(cfg: Config, m: MMEState, at: int)
    requires InRange(cfg) && SECOND % cfg.rate == 0
    requires BucketValid(cfg, m) && m.tokens == 0 && 0 < m.lastRefillAt <= at
    ensures RetryDelaySuffices(cfg, m, at)
  {
    hide Earned, TruncDiv, Wrap64;
    RetryEarns(cfg.rate, m.lastRefillAt, at);
    EarnedIsInt64(cfg.rate, m.lastRefillAt, at + SECOND / cfg.rate);
    WrapBelow(Earned(cfg.rate, m.lastRefillAt, at + SECOND / cfg.rate));
  }

  lemma RetryFallsShort(cfg: Config)
    requires InRange(cfg) && SECOND % cfg.rate != 0
    ensures var m := NewMME(cfg, 1).(tokens := 0);
            BucketValid(cfg, m) && !RetryDelaySuffices(cfg, m, 1)
  {
    var d := SECOND / cfg.rate;
    DivBounds(SECOND, cfg.rate);
    assert cfg.rate * d < SECOND && d * cfg.rate == cfg.rate * d;
    assert Earned(cfg.rate, 1, 1 + d) <= 0;
    hide Earned, TruncDiv, Wrap64;
  }

  lemma RetryEarns(rate: int, last: int, at: int)
    requires 0 < rate && SECOND % rate == 0 && last <= at
    ensures SECOND / rate > 0 && Earned(rate, last, at + SECOND / rate) > 0
  {
    var d := SECOND / rate;
    assert rate * d == SECOND;
    var span := if at + d - last > INT64_MAX then INT64_MAX else at + d - last;
    assert d <= SECOND;
    ScaleUp(rate, d, span);
    assert span * rate == rate * span;
  }

  // ---- The controller ---------------------------------------------------------

  class Controller {
    const cfg: Config
    var mmes: map<string, MMEState>
    var ues: map<string, UEState>

    ghost function View(): DdnState
      reads this
    {
      DdnState(mmes, ues)
    }

    constructor (cfg: Config)
      ensures this.cfg == cfg && View() == Run(cfg, [])
    {
      this.cfg := cfg;
      mmes, ues := map[], map[];
    }

    method ClassifyLocked(c: Candidate) returns (p: Priority)
      ensures p == Classify(cfg, c)
    {
      for i := 0 to |cfg.highPriority|
        invariant forall j :: 0 <= j < i ==> !Matches(cfg.highPriority[j], c)
      {
        if Matches(cfg.highPriority[i], c) {
          return High;
        }
      }
      for i := 0 to |cfg.lowPriority|
        invariant forall j :: 0 <= j < i ==> !Matches(cfg.lowPriority[j], c)
      {
        if Matches(cfg.lowPriority[i], c) {
          return Low;
        }
      }
      return Normal;
    }

    method MMELocked(addr: string, at: int) returns (m: MMEState)
      modifies this`mmes
      ensures m == MMEOf(cfg, old(View()), addr, at)
      ensures mmes == old(mmes)[addr := m]
    {
      if addr !in mmes {
        mmes := mmes[addr := NewMME(cfg, at)];
      }
      m := mmes[addr];
    }

    method UELocked(imsi: string) returns (u: UEState)
      modifies this`ues
      ensures u == UEOf(old(View()), imsi)
      ensures ues == old(ues)[imsi := u]
    {
      if imsi !in ues {
        ues := ues[imsi := NEW_UE];
      }
      u := ues[imsi];
    }

    method RefillMMELocked(addr: string, at: int)
      requires addr in mmes
      modifies this`mmes
      ensures mmes == old(mmes)[addr := Refill(cfg, old(mmes[addr]), at)]
    {
      hide Earned, Wrap64, TruncDiv;
      var m := mmes[addr];
      var rate := if cfg.rate <= 0 then 1 else cfg.rate;
      var burst := if cfg.burst <= 0 then rate else cfg.burst;
      if m.burst <= 0 {
        m := m.(burst := burst);
      }
      if m.rate <= 0 {
        m := m.(rate := rate);
      }
      if m.tokens > m.burst {
        m := m.(tokens := m.burst);
      }
      mmes := mmes[addr := m];
      if m.lastRefillAt == 0 {
        mmes := mmes[addr := m.(lastRefillAt := at)];
        return;
      }
      if at <= m.lastRefillAt {
        return;
      }
      var add := Earned(rate, m.lastRefillAt, at);
      if add <= 0 {
        return;
      }
      m := m.(tokens := Wrap64(m.tokens + add));
      if m.tokens > m.burst {
        m := m.(tokens := m.burst);
      }
      m := m.(lastRefillAt := m.lastRefillAt + TruncDiv(Wrap64(add * SECOND), rate));
      mmes := mmes[addr := m];
    }

    method RecordSentLocked(c: Candidate, p: Priority, at: int)
      modifies this
      ensures mmes == old(mmes)[c.mme := RecordSent(cfg, MMEOf(cfg, old(View()), c.mme, at), p)]
      ensures var u := UEOf(old(View()), c.imsi);
              ues == old(ues)[c.imsi := Touch(u, c, p).(lastDDNAt := at, sent := u.sent + 1)]
    {
      var m := MMELocked(c.mme, at);
      m := m.(sent := m.sent + 1);
      if p == High && cfg.highPriorityBypass {
        m := m.(highPriorityBypassed := m.highPriorityBypassed + 1);
      }
      mmes := mmes[c.mme := m];
      var u := UELocked(c.imsi);
      ues := ues[c.imsi := Touch(u, c, p).(lastDDNAt := at, sent := u.sent + 1)];
    }

    method RecordSuppressedLocked(c: Candidate, p: Priority)
      requires c.mme in mmes
      modifies this
      ensures var m := old(mmes[c.mme]); mmes == old(mmes)[c.mme := m.(suppressed := m.suppressed + 1)]
      ensures var u := UEOf(old(View()), c.imsi); ues == old(ues)[c.imsi := Touch(u, c, p).(suppressed := u.suppressed + 1)]
    {
      var m := mmes[c.mme];
      mmes := mmes[c.mme := m.(suppressed := m.suppressed + 1)];
      var u := UELocked(c.imsi);
      ues := ues[c.imsi := Touch(u, c, p).(suppressed := u.suppressed + 1)];
    }

    method RecordDelayedLocked(c: Candidate, p: Priority)
      requires c.mme in mmes
      modifies this
      ensures var m := old(mmes[c.mme]); mmes == old(mmes)[c.mme := m.(delayed := m.delayed + 1)]
      ensures var u := UEOf(old(View()), c.imsi); ues == old(ues)[c.imsi := Touch(u, c, p).(delayed := u.delayed + 1)]
    {
      var m := mmes[c.mme];
      mmes := mmes[c.mme := m.(delayed := m.delayed + 1)];
      var u := UELocked(c.imsi);
      ues := ues[c.imsi := Touch(u, c, p).(delayed := u.delayed + 1)];
    }

    /** The clock reading stands in when the caller passes the zero time. */
    method DecideDDN(c: Candidate, requestedAt: int, clock: int) returns (d: Decision)
      modifies this
      ensures var at := if requestedAt == 0 then clock else requestedAt;
              && d == Decide(cfg, old(View()), c, at).d
              && View() == Step(cfg, old(View()), Decided(c, at))
    {
      var at := requestedAt;
      if at == 0 {
        at := clock;
      }
      var p := ClassifyLocked(c);
      hide Classify, Refill, Admit, Touch, RecordSent;
      if !cfg.enabled {
        RecordSentLocked(c, p, at);
        return Decision(SendNow, p, ControlDisabled, 0, false, 0, 0);
      }
      d := DecideLocked(c, p, at);
    }

    /** The decision of an enabled control. */
    method DecideLocked(c: Candidate, p: Priority, at: int) returns (d: Decision)
      modifies this
      ensures var o := Admit(cfg, Refill(cfg, MMEOf(cfg, old(View()), c.mme, at), at), UEOf(old(View()), c.imsi), c, p, at);
              d == o.d && mmes == old(mmes)[c.mme := o.m] && ues == old(ues)[c.imsi := o.u]
    {
      hide Refill, Admit;
      var m := MMELocked(c.mme, at);
      RefillMMELocked(c.mme, at);
      m := mmes[c.mme];
      var u := UELocked(c.imsi);
      d := AdmitLocked(c, p, at, m, u);
    }

    /** What follows the refill under the same lock. */
    method AdmitLocked(c: Candidate, p: Priority, at: int, refilled: MMEState, u: UEState) returns (d: Decision)
      requires c.mme in mmes && mmes[c.mme] == refilled && c.imsi in ues && ues[c.imsi] == u
      modifies this
      ensures var o := Admit(cfg, refilled, u, c, p, at);
              d == o.d && mmes == old(mmes)[c.mme := o.m] && ues == old(ues)[c.imsi := o.u]
    {
      hide Touch, RecordSent, NextTokenDelay;
      var m := refilled;
      d := Decision(Suppress, p, Classified, 0, false, m.tokens, m.tokens);
      if p != High && cfg.perUESuppression > 0 && u.lastDDNAt != 0 {
        var until := u.lastDDNAt + cfg.perUESuppression;
        if at < until {
          RecordSuppressedLocked(c, p);
          return d.(reason := PerUESuppression, retryAfter := until - at);
        }
      }
      if p == Low && cfg.honorMMELowPriority && m.throttledUntil != 0 && at < m.throttledUntil {
        RecordSuppressedLocked(c, p);
        return d.(reason := MMELowPriorityThrottling, retryAfter := m.throttledUntil - at);
      }
      if m.tokens > 0 {
        m := m.(tokens := m.tokens - 1);
        mmes := mmes[c.mme := m];
        RecordSentLocked(c, p, at);
        return d.(action := SendNow, tokensAfter := m.tokens);
      }
      if p == High && cfg.highPriorityBypass {
        RecordSentLocked(c, p, at);
        return d.(action := SendNow, bypass := true, reason := HighPriorityBypass);
      }
      RecordDelayedLocked(c, p);
      d := d.(action := Delay, reason := PerMMERateLimit, retryAfter := NextTokenDelay(cfg, m));
    }

    method MarkMMELowPriorityThrottled(addr: string, until: int, requestedAt: int, clock: int)
      modifies this
      ensures View() == Step(cfg, old(View()), Throttled(addr, until, if requestedAt == 0 then clock else requestedAt))
    {
      var at := if requestedAt == 0 then clock else requestedAt;
      var m := MMELocked(addr, at);
      mmes := mmes[addr := m.(throttledUntil := until, throttleReceived := at)];
    }
  }
}
