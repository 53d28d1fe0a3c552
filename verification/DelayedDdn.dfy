/**
 * The bounded queue of delayed notifications (internal/sgwc/mmerestoration/handler.go):
 * one entry per session, counted per MME. A timer may call back at any moment, even for an
 * entry already replaced.
 */
module DelayedDdn {
  import opened Wrappers

  datatype Config = Config(maxAge: int, queueMax: int, queuePerMME: int)

  datatype Entry = Entry(mme: string, enqueuedAt: int, fireAt: int)

  datatype QueueState = QueueState(queue: map<string, Entry>, perMME: map<string, int>)

  const SECOND: int := 1_000_000_000

  function MaxAge(cfg: Config): int {
    if cfg.maxAge <= 0 then 30 * SECOND else cfg.maxAge
  }

  function MaxGlobal(cfg: Config): int {
    if cfg.queueMax <= 0 then 1000 else cfg.queueMax
  }

  function MaxPerMME(cfg: Config): int {
    if cfg.queuePerMME <= 0 then 200 else cfg.queuePerMME
  }

  function Counter(s: QueueState, mme: string): int {
    if mme in s.perMME then s.perMME[mme] else 0
  }

  function CountDown(s: QueueState, mme: string): QueueState {
    if Counter(s, mme) > 0 then s.(perMME := s.perMME[mme := Counter(s, mme) - 1]) else s
  }

  /** An entry of the same session is replaced without looking at the limits. */
  predicate Admits(cfg: Config, s: QueueState, sess: string, mme: string, retryAfter: int) {
    && 0 < retryAfter <= MaxAge(cfg)
    && (sess in s.queue || (|s.queue| < MaxGlobal(cfg) && Counter(s, mme) < MaxPerMME(cfg)))
  }

  function Enqueue(cfg: Config, s: QueueState, sess: string, mme: string, retryAfter: int, at: int): QueueState {
    if !Admits(cfg, s, sess, mme, retryAfter) then s
    else
      var s1 := if sess in s.queue then CountDown(s, s.queue[sess].mme) else s;
      QueueState(s1.queue[sess := Entry(mme, at, at + retryAfter)], s1.perMME[mme := Counter(s1, mme) + 1])
  }

  function Fire(s: QueueState, sess: string): QueueState {
    if sess !in s.queue then s
    else CountDown(s.(queue := s.queue - {sess}), s.queue[sess].mme)
  }

  datatype Event =
    | Enqueued(sess: string, mme: string, retryAfter: int, at: int)
    | Fired(sess: string)

  function Step(cfg: Config, s: QueueState, e: Event): QueueState {
    match e
    case Enqueued(sess, mme, retryAfter, at) => Enqueue(cfg, s, sess, mme, retryAfter, at)
    case Fired(sess) => Fire(s, sess)
  }

  function Run(cfg: Config, es: seq<Event>): QueueState {
    if es == [] then QueueState(map[], map[]) else Step(cfg, Run(cfg, es[..|es| - 1]), es[|es| - 1])
  }

  // ---- Counters are exact -----------------------------------------------------

  function EntriesFor(queue: map<string, Entry>, mme: string): set<string> {
    set sess | sess in queue && queue[sess].mme == mme
  }

  ghost predicate Counted(s: QueueState) {
    forall mme :: Counter(s, mme) == |EntriesFor(s.queue, mme)|
  }

  lemma RemovalCounts(queue: map<string, Entry>, sess: string, mme: string)
    requires sess in queue
    ensures |EntriesFor(queue - {sess}, mme)| == |EntriesFor(queue, mme)| - if queue[sess].mme == mme then 1 else 0
  {
    assert EntriesFor(queue - {sess}, mme) == EntriesFor(queue, mme) - {sess};
  }

  lemma InsertionCounts(queue: map<string, Entry>, sess: string, entry: Entry, mme: string)
    requires sess !in queue
    ensures |EntriesFor(queue[sess := entry], mme)| == |EntriesFor(queue, mme)| + if entry.mme == mme then 1 else 0
  {
    var more := EntriesFor(queue[sess := entry], mme);
    assert more == EntriesFor(queue, mme) + if entry.mme == mme then {sess} else {};
  }

  /** Taking an entry off the queue and counting down keeps every counter exact. */
  lemma FireCounts(s: QueueState, sess: string)
    requires Counted(s) && sess in s.queue
    ensures Counted(Fire(s, sess))
    ensures forall mme :: Counter(Fire(s, sess), mme) == Counter(s, mme) - if s.queue[sess].mme == mme then 1 else 0
  {
    forall mme ensures && Counter(Fire(s, sess), mme) == |EntriesFor(Fire(s, sess).queue, mme)|
                       && Counter(Fire(s, sess), mme) == Counter(s, mme) - if s.queue[sess].mme == mme then 1 else 0
    {
      RemovalCounts(s.queue, sess, mme);
      RemovalCounts(s.queue, sess, s.queue[sess].mme);
    }
  }

  function Insert(s: QueueState, sess: string, entry: Entry): QueueState {
    QueueState(s.queue[sess := entry], s.perMME[entry.mme := Counter(s, entry.mme) + 1])
  }

  lemma InsertCounts(s: QueueState, sess: string, entry: Entry)
    requires Counted(s) && sess !in s.queue
    ensures Counted(Insert(s, sess, entry))
    ensures Insert(s, sess, entry).queue.Keys == s.queue.Keys + {sess}
    ensures forall m :: Counter(Insert(s, sess, entry), m) == Counter(s, m) + if m == entry.mme then 1 else 0
  {
    forall m ensures Counter(Insert(s, sess, entry), m) == |EntriesFor(Insert(s, sess, entry).queue, m)| {
      InsertionCounts(s.queue, sess, entry, m);
    }
  }

  /** An accepted notification replaces the session's entry: as if that one fired, then one more was counted. */
  lemma EnqueueIsFireThenInsert(cfg: Config, s: QueueState, sess: string, mme: string, retryAfter: int, at: int)
    requires Admits(cfg, s, sess, mme, retryAfter)
    ensures Enqueue(cfg, s, sess, mme, retryAfter, at) == Insert(Fire(s, sess), sess, Entry(mme, at, at + retryAfter))
    ensures sess !in Fire(s, sess).queue
  {
    var entry := Entry(mme, at, at + retryAfter);
    if sess in s.queue {
      assert (s.queue - {sess})[sess := entry] == s.queue[sess := entry];
    }
  }

  lemma EnqueueCounts(cfg: Config, s: QueueState, sess: string, mme: string, retryAfter: int, at: int)
    requires Counted(s) && Admits(cfg, s, sess, mme, retryAfter)
    ensures var t := Enqueue(cfg, s, sess, mme, retryAfter, at);
            && Counted(t)
            && t.queue.Keys == s.queue.Keys + {sess}
            && forall m :: Counter(t, m) ==
                 Counter(s, m) + (if m == mme then 1 else 0) - (if sess in s.queue && s.queue[sess].mme == m then 1 else 0)
  {
    hide EntriesFor, Enqueue, Insert, Fire, CountDown, Counter, Admits;
    EnqueueIsFireThenInsert(cfg, s, sess, mme, retryAfter, at);
    FireKeepsCounted(s, sess);
    InsertCounts(Fire(s, sess), sess, Entry(mme, at, at + retryAfter));
  }

  lemma FireKeepsCounted(s: QueueState, sess: string)
    requires Counted(s)
    ensures Counted(Fire(s, sess))
    ensures Fire(s, sess).queue.Keys == s.queue.Keys - {sess}
    ensures forall m :: Counter(Fire(s, sess), m) ==
                        Counter(s, m) - if sess in s.queue && s.queue[sess].mme == m then 1 else 0
  {
    if sess in s.queue {
      FireCounts(s, sess);
    }
  }

  /** In every run each counter is the number of entries queued for its MME, and the queue stays within its limit. */
  lemma {:induction false} CountersAreExact(cfg: Config, es: seq<Event>)
    ensures Counted(Run(cfg, es))
    ensures |Run(cfg, es).queue| <= MaxGlobal(cfg)
  {
    if es == [] {
      assert forall mme :: EntriesFor(map[], mme) == {};
    } else {
      var s, e := Run(cfg, es[..|es| - 1]), es[|es| - 1];
      CountersAreExact(cfg, es[..|es| - 1]);
      match e
      case Enqueued(sess, mme, retryAfter, at) =>
        if Admits(cfg, s, sess, mme, retryAfter) {
          EnqueueCounts(cfg, s, sess, mme, retryAfter, at);
          assert sess in s.queue ==> s.queue.Keys + {sess} == s.queue.Keys;
          assert |Enqueue(cfg, s, sess, mme, retryAfter, at).queue.Keys| == |s.queue.Keys + {sess}|;
        }
      case Fired(sess) =>
        FireKeepsCounted(s, sess);
        assert |Fire(s, sess).queue.Keys| == |s.queue.Keys - {sess}|;
    }
  }

  /**
   * What a notification does to the queue, in terms of its entries alone: it is taken when its
   * delay is positive and not beyond the maximum age (30 s unless set), and either replaces
   * its session's entry or finds room overall (1000 unless set) and for its MME (200 unless set).
   */
  lemma EnqueueEffect(cfg: Config, s: QueueState, sess: string, mme: string, retryAfter: int, at: int)
    requires Counted(s)
    ensures var maxAge := if cfg.maxAge <= 0 then 30_000_000_000 else cfg.maxAge;
            var room := && |s.queue| < (if cfg.queueMax <= 0 then 1000 else cfg.queueMax)
                        && |EntriesFor(s.queue, mme)| < (if cfg.queuePerMME <= 0 then 200 else cfg.queuePerMME);
            Enqueue(cfg, s, sess, mme, retryAfter, at).queue ==
            if 0 < retryAfter <= maxAge && (sess in s.queue || room) then s.queue[sess := Entry(mme, at, at + retryAfter)] else s.queue
    ensures Fire(s, sess).queue == s.queue - {sess}
  {
    hide EntriesFor;
    assert Counter(s, mme) == |EntriesFor(s.queue, mme)|;
  }

  // ---- The per-MME limit ------------------------------------------------------

  ghost predicate WithinLimits(cfg: Config, s: QueueState) {
    forall mme :: Counter(s, mme) <= MaxPerMME(cfg)
  }

  /**
   * Exactly when one enqueue keeps the per-MME limit: unless it moves a queued session to
   * an MME that is already full.
   */
  lemma EnqueueKeepsLimitIff(cfg: Config, s: QueueState, sess: string, mme: string, retryAfter: int, at: int)
    requires Counted(s) && WithinLimits(cfg, s)
    ensures WithinLimits(cfg, Enqueue(cfg, s, sess, mme, retryAfter, at)) <==>
            !(0 < retryAfter <= MaxAge(cfg) && sess in s.queue && s.queue[sess].mme != mme && Counter(s, mme) >= MaxPerMME(cfg))
  {
    if Admits(cfg, s, sess, mme, retryAfter) {
      EnqueueCounts(cfg, s, sess, mme, retryAfter, at);
      assert Counter(Enqueue(cfg, s, sess, mme, retryAfter, at), mme) ==
        Counter(s, mme) + 1 - if sess in s.queue && s.queue[sess].mme == mme then 1 else 0;
    }
  }

  /** Every session queues under one MME throughout the run. */
  predicate StaysHome(es: seq<Event>, home: map<string, string>) {
    forall i :: 0 <= i < |es| && es[i].Enqueued? ==> es[i].sess in home && home[es[i].sess] == es[i].mme
  }

  lemma {:induction false} PerMMELimit(cfg: Config, es: seq<Event>, home: map<string, string>)
    requires StaysHome(es, home)
    ensures WithinLimits(cfg, Run(cfg, es))
    ensures forall sess :: sess in Run(cfg, es).queue ==> sess in home && home[sess] == Run(cfg, es).queue[sess].mme
  {
    if es != [] {
      var prefix, e := es[..|es| - 1], es[|es| - 1];
      var s := Run(cfg, prefix);
      PerMMELimit(cfg, prefix, home);
      CountersAreExact(cfg, prefix);
      match e
      case Enqueued(sess, mme, retryAfter, at) =>
        EnqueueKeepsLimitIff(cfg, s, sess, mme, retryAfter, at);
      case Fired(sess) =>
        if sess in s.queue {
          FireCounts(s, sess);
        }
    }
  }

  /** A session that moves between MMEs gets past the limit: with room for one entry, an MME holds two. */
  lemma MovedSessionExceedsLimit(cfg: Config)
    requires cfg.queuePerMME == 1 && MaxGlobal(cfg) >= 2 && MaxAge(cfg) >= 1
    ensures var es := [Enqueued("a", "m", 1, 1), Enqueued("b", "n", 1, 1), Enqueued("b", "m", 1, 2)];
            Counter(Run(cfg, es), "m") == 2
  {
    var e0, e1, e2 := Enqueued("a", "m", 1, 1), Enqueued("b", "n", 1, 1), Enqueued("b", "m", 1, 2);
    assert [e0, e1, e2][..2] == [e0, e1] && [e0, e1][..1] == [e0] && [e0][..0] == [];
    var s0, s1, s2 := Run(cfg, []), Run(cfg, [e0]), Run(cfg, [e0, e1]);
    hide Run;
    assert s1 == Enqueue(cfg, s0, "a", "m", 1, 1) by { RunStep(cfg, [], e0); }
    assert s1.queue == map["a" := Entry("m", 1, 2)] && |s1.queue| == 1;
    assert s2 == Enqueue(cfg, s1, "b", "n", 1, 1) by { RunStep(cfg, [e0], e1); }
    assert "b" in s2.queue && s2.queue["b"].mme == "n" && Counter(s2, "m") == 1;
    RunStep(cfg, [e0, e1], e2);
  }

  lemma RunStep(cfg: Config, es: seq<Event>, e: Event)
    ensures Run(cfg, es + [e]) == Step(cfg, Run(cfg, es), e)
  {
    assert (es + [e])[..|es|] == es;
  }

  // ---- Nothing is lost or fired twice -----------------------------------------

  /** Whether an event adds an entry, and whether it takes one off. */
  predicate Adds(cfg: Config, s: QueueState, e: Event) {
    e.Enqueued? && Admits(cfg, s, e.sess, e.mme, e.retryAfter)
  }

  predicate Removes(cfg: Config, s: QueueState, e: Event) {
    e.sess in s.queue && (e.Fired? || Adds(cfg, s, e))
  }

  function Tally(cfg: Config, es: seq<Event>, sess: string, adds: bool): nat {
    if es == [] then 0
    else
      var s, e := Run(cfg, es[..|es| - 1]), es[|es| - 1];
      Tally(cfg, es[..|es| - 1], sess, adds) +
      if e.sess == sess && (if adds then Adds(cfg, s, e) else Removes(cfg, s, e)) then 1 else 0
  }

  /** Every accepted entry of a session is fired or replaced exactly once, or still queued: never both, never twice. */
  lemma {:induction false} EntriesConserved(cfg: Config, es: seq<Event>, sess: string)
    ensures Tally(cfg, es, sess, true) ==
            Tally(cfg, es, sess, false) + if sess in Run(cfg, es).queue then 1 else 0
    ensures Tally(cfg, es, sess, true) <= |es|
  {
    if es != [] {
      EntriesConserved(cfg, es[..|es| - 1], sess);
    }
  }

  // ---- The queue object -------------------------------------------------------

  class DelayedQueue {
    const cfg: Config
    var queue: map<string, Entry>
    var queueMME: map<string, int>

    ghost function View(): QueueState
      reads this
    {
      QueueState(queue, queueMME)
    }

    constructor (cfg: Config)
      ensures this.cfg == cfg && View() == Run(cfg, [])
    {
      this.cfg := cfg;
      queue, queueMME := map[], map[];
    }

    method Release(mme: string)
      modifies this`queueMME
      ensures View() == CountDown(old(View()), mme)
    {
      if mme in queueMME && queueMME[mme] > 0 {
        queueMME := queueMME[mme := queueMME[mme] - 1];
      }
    }

    /** The clock reading stands in when the caller passes the zero time. */
    method EnqueueDelayedDDN(mme: string, sess: string, retryAfter: int, requestedAt: int, clock: int) returns (ok: bool)
      modifies this
      ensures ok == Admits(cfg, old(View()), sess, mme, retryAfter)
      ensures View() == Step(cfg, old(View()), Enqueued(sess, mme, retryAfter, if requestedAt == 0 then clock else requestedAt))
    {
      if retryAfter <= 0 {
        return false;
      }
      var at := if requestedAt == 0 then clock else requestedAt;
      if retryAfter > MaxAge(cfg) {
        return false;
      }
      if sess in queue {
        Release(queue[sess].mme);
      } else if |queue| >= MaxGlobal(cfg) || (if mme in queueMME then queueMME[mme] else 0) >= MaxPerMME(cfg) {
        return false;
      }
      queue := queue[sess := Entry(mme, at, at + retryAfter)];
      queueMME := queueMME[mme := (if mme in queueMME then queueMME[mme] else 0) + 1];
      return true;
    }

    method FireDelayedDDN(sess: string) returns (entry: Option<Entry>)
      modifies this
      ensures View() == Step(cfg, old(View()), Fired(sess))
      ensures entry == if sess in old(queue) then Some(old(queue[sess])) else None
    {
      if sess !in queue {
        return None;
      }
      entry := Some(queue[sess]);
      queue := queue - {sess};
      Release(entry.value.mme);
    }
  }
}
