/**
 * At-most-once handling of inbound GTPv2-C requests
 * (internal/gtpv2/transport/transport.go; TS 29.274 section 7.6): the in-flight set and the
 * response cache, as atomic steps between which the goroutines interleave freely.
 * Times are nanoseconds.
 */
module Retransmission {
  import opened Wrappers
  import opened Bytes
  import opened Messages

  datatype Key = Key(addr: string, seqNo: u32, msgType: byte, teid: u32)

  datatype Cached = Cached(raw: seq<byte>, expires: int)

  type Cache = map<Key, Cached>

  const TTL: int := 30_000_000_000

  // ---- The two shared tables --------------------------------------------------

  datatype Verdict = Resend(raw: seq<byte>) | Drop | Start

  function Check(cache: Cache, inFlight: set<Key>, key: Key, at: int): Verdict {
    if key in cache && at <= cache[key].expires then Resend(cache[key].raw)
    else if key in inFlight then Drop
    else Start
  }

  /** An expired entry is dropped when its key is looked up. */
  function CacheAfterCheck(cache: Cache, key: Key, at: int): Cache {
    if key in cache && at > cache[key].expires then cache - {key} else cache
  }

  function Sweep(cache: Cache, at: int): Cache {
    map k | k in cache && at <= cache[k].expires :: cache[k]
  }

  function StoreIn(cache: Cache, key: Key, raw: seq<byte>, at: int): Cache {
    Sweep(cache, at)[key := Cached(raw, at + TTL)]
  }

  /** In-flight keys a response of this address, sequence number and request type may be filed under. */
  predicate Answerable(inFlight: set<Key>, addr: string, seqNo: u32, reqType: byte, k: Key) {
    k in inFlight && k.addr == addr && k.seqNo == seqNo && k.msgType == reqType
  }

  /** The key a response is cached under; any matching in-flight key may be found first. */
  predicate MayFile(inFlight: set<Key>, addr: string, h: Header, k: Key) {
    match RequestTypeForResponse(h.messageType)
    case None => k == Key(addr, h.sequenceNumber, h.messageType, h.teid)
    case Some(reqType) =>
      if exists c :: c in inFlight && Answerable(inFlight, addr, h.sequenceNumber, reqType, c) then
        Answerable(inFlight, addr, h.sequenceNumber, reqType, k)
      else
        k == Key(addr, h.sequenceNumber, reqType, 0)
  }

  /** A response to the request of a key: same sequence number, the answering message type. */
  predicate Answers(raw: seq<byte>, key: Key) {
    && ParseHeader(raw).Ok?
    && ParseHeader(raw).value.header.sequenceNumber == key.seqNo
    && RequestTypeForResponse(ParseHeader(raw).value.header.messageType) == Some(key.msgType)
  }

  /** Keys that differ at most in the TEID. */
  predicate Twins(a: Key, b: Key) {
    a.addr == b.addr && a.seqNo == b.seqNo && a.msgType == b.msgType
  }

  ghost predicate NoTwins(inFlight: set<Key>) {
    forall a, b :: a in inFlight && b in inFlight && Twins(a, b) ==> a == b
  }

  /** While a request is in flight, its response is certain to be filed under its key exactly when the key has no twin. */
  lemma FiledUnderOwnKeyIff(inFlight: set<Key>, key: Key, raw: seq<byte>)
    requires key in inFlight && Answers(raw, key)
    ensures (forall k :: MayFile(inFlight, key.addr, ParseHeader(raw).value.header, k) ==> k == key) <==>
            (forall k :: k in inFlight && Twins(k, key) ==> k == key)
  {
    var h := ParseHeader(raw).value.header;
    hide ParseHeader;
    assert Answerable(inFlight, key.addr, h.sequenceNumber, key.msgType, key);
    assert forall k :: MayFile(inFlight, key.addr, h, k) <==> k in inFlight && Twins(k, key);
  }

  // ---- The machine ------------------------------------------------------------

  /** A handler replies at most once: it sends, looks its key up, stores, and later returns. */
  datatype Phase = Working | Sent(raw: seq<byte>) | Found(raw: seq<byte>, under: Key) | Stored

  datatype Handler = Handler(key: Key, phase: Phase)

  datatype Machine = Machine(cache: Cache, inFlight: set<Key>, handlers: map<nat, Handler>, started: nat, clock: int)

  datatype Event =
    | Receive(key: Key, at: int)
    | Send(id: nat, raw: seq<byte>)
    | FindKey(id: nat, under: Key)
    | Store(id: nat, at: int)
    | Return(id: nat)

  predicate Enabled(m: Machine, e: Event) {
    match e
    case Receive(_, at) => m.clock <= at
    case Send(id, raw) => id in m.handlers && m.handlers[id].phase == Working && ParseHeader(raw).Ok?
    case FindKey(id, under) =>
      && id in m.handlers && m.handlers[id].phase.Sent?
      && ParseHeader(m.handlers[id].phase.raw).Ok?
      && MayFile(m.inFlight, m.handlers[id].key.addr, ParseHeader(m.handlers[id].phase.raw).value.header, under)
    case Store(id, at) => id in m.handlers && m.handlers[id].phase.Found? && m.clock <= at
    case Return(id) => id in m.handlers && (m.handlers[id].phase == Working || m.handlers[id].phase == Stored)
  }

  function SetPhase(m: Machine, id: nat, p: Phase): Machine
    requires id in m.handlers
  {
    m.(handlers := m.handlers[id := m.handlers[id].(phase := p)])
  }

  function Step(m: Machine, e: Event): Machine
    requires Enabled(m, e)
  {
    match e
    case Receive(key, at) =>
      var seen := m.(cache := CacheAfterCheck(m.cache, key, at), clock := at);
      if Check(m.cache, m.inFlight, key, at) == Start then
        seen.(inFlight := m.inFlight + {key}, handlers := m.handlers[m.started := Handler(key, Working)], started := m.started + 1)
      else seen
    case Send(id, raw) => SetPhase(m, id, Sent(raw))
    case FindKey(id, under) => SetPhase(m, id, Found(m.handlers[id].phase.raw, under))
    case Store(id, at) =>
      var p := m.handlers[id].phase;
      SetPhase(m, id, Stored).(cache := StoreIn(m.cache, p.under, p.raw, at), clock := at)
    case Return(id) =>
      m.(inFlight := m.inFlight - {m.handlers[id].key}, handlers := m.handlers - {id})
  }

  const IDLE: Machine := Machine(map[], {}, map[], 0, 0)

  ghost predicate Legal(es: seq<Event>)
    decreases |es|, 0
  {
    es == [] || (Legal(es[..|es| - 1]) && Enabled(Run(es[..|es| - 1]), es[|es| - 1]))
  }

  ghost function Run(es: seq<Event>): Machine
    requires Legal(es)
    decreases |es|, 1
  {
    if es == [] then IDLE else Step(Run(es[..|es| - 1]), es[|es| - 1])
  }

  /** Every prefix of a legal run is legal: asking it of a prefix below asks nothing more. */
  lemma {:induction false} LegalPrefix(es: seq<Event>, i: nat)
    requires Legal(es) && i <= |es|
    ensures Legal(es[..i])
    decreases |es|
  {
    if i < |es| {
      LegalPrefix(es[..|es| - 1], i);
      assert es[..|es| - 1][..i] == es[..i];
    } else {
      assert es[..i] == es;
    }
  }

  // ---- One handler per key, whatever the interleaving -------------------------

  ghost predicate OneHandlerPerKey(m: Machine) {
    && (forall i :: i in m.handlers ==> i < m.started && m.handlers[i].key in m.inFlight)
    && (forall i, j :: i in m.handlers && j in m.handlers && m.handlers[i].key == m.handlers[j].key ==> i == j)
    && (forall k :: k in m.inFlight ==> exists i :: i in m.handlers && m.handlers[i].key == k)
  }

  lemma StepKeepsOneHandler(m: Machine, e: Event)
    requires OneHandlerPerKey(m) && Enabled(m, e)
    ensures OneHandlerPerKey(Step(m, e))
  {
    hide Answers, ParseHeader, MayFile, CacheAfterCheck, StoreIn, OneHandlerPerKey;
    match e
    case Receive(key, at) =>
      hide Step;
      ReceiveKeepsOneHandler(m, key, at);
    case Send(id, raw) => SetPhaseKeepsOneHandler(m, id, Sent(raw));
    case FindKey(id, under) => SetPhaseKeepsOneHandler(m, id, Found(m.handlers[id].phase.raw, under));
    case Store(id, at) =>
      SetPhaseKeepsOneHandler(m, id, Stored);
      OnlyHandlersMatter(SetPhase(m, id, Stored), Step(m, e));
    case Return(id) =>
      hide Step;
      ReturnKeepsOneHandler(m, id);
  }

  lemma OnlyHandlersMatter(m: Machine, n: Machine)
    requires OneHandlerPerKey(m) && n.handlers == m.handlers && n.inFlight == m.inFlight && n.started == m.started
    ensures OneHandlerPerKey(n)
  {
  }

  lemma SetPhaseKeepsOneHandler(m: Machine, id: nat, p: Phase)
    requires OneHandlerPerKey(m) && id in m.handlers
    ensures OneHandlerPerKey(SetPhase(m, id, p))
  {
    var n := SetPhase(m, id, p);
    assert forall i :: i in n.handlers ==> i in m.handlers && n.handlers[i].key == m.handlers[i].key;
    assert forall i :: i in m.handlers ==> i in n.handlers;
  }

  lemma ReceiveKeepsOneHandler(m: Machine, key: Key, at: int)
    requires OneHandlerPerKey(m) && m.clock <= at
    ensures OneHandlerPerKey(Step(m, Receive(key, at)))
  {
    var n := Step(m, Receive(key, at));
    hide CacheAfterCheck;
    if Check(m.cache, m.inFlight, key, at) == Start {
      assert forall i :: i in m.handlers ==> i in n.handlers && n.handlers[i] == m.handlers[i];
      assert n.handlers[m.started].key == key;
    }
  }

  lemma ReturnKeepsOneHandler(m: Machine, id: nat)
    requires OneHandlerPerKey(m) && Enabled(m, Return(id))
    ensures OneHandlerPerKey(Step(m, Return(id)))
  {
    var n := Step(m, Return(id));
    assert forall i :: i in n.handlers <==> i in m.handlers && i != id;
    assert forall i :: i in n.handlers ==> n.handlers[i] == m.handlers[i];
  }

  /** No key ever has two handlers running, and the in-flight set is exactly the running handlers' keys. */
  lemma {:induction false} NoDuplicateHandlers(es: seq<Event>)
    requires Legal(es)
    ensures OneHandlerPerKey(Run(es))
    decreases |es|
  {
    if es != [] {
      NoDuplicateHandlers(es[..|es| - 1]);
      StepKeepsOneHandler(Run(es[..|es| - 1]), es[|es| - 1]);
    }
  }

  /** In every reachable state: a request is dropped only while a handler runs for it, and started only when none does. */
  lemma VerdictMeans(es: seq<Event>, key: Key, at: int)
    requires Legal(es)
    ensures var m := Run(es);
            var running, cached := exists i :: i in m.handlers && m.handlers[i].key == key, key in m.cache && at <= m.cache[key].expires;
            match Check(m.cache, m.inFlight, key, at)
            case Resend(raw) => cached && raw == m.cache[key].raw
            case Drop => !cached && running
            case Start => !cached && !running
  {
    NoDuplicateHandlers(es);
    hide Legal, Run;
  }

  // ---- What is resent ---------------------------------------------------------

  /** At this step a handler stores a reply it sent, under a key. */
  ghost predicate StoresHere(es: seq<Event>, i: nat, key: Key, raw: seq<byte>)
    requires Legal(es) && i < |es|
  {
    LegalPrefix(es, i);
    es[i].Store? && es[i].id in Run(es[..i]).handlers && Run(es[..i]).handlers[es[i].id].phase == Found(raw, key)
  }

  lemma {:induction false} CachedWasStored(es: seq<Event>, key: Key) returns (i: nat)
    requires Legal(es) && key in Run(es).cache
    ensures i < |es| && StoresHere(es, i, key, Run(es).cache[key].raw) && Run(es).cache[key].expires == es[i].at + TTL
    decreases |es|
  {
    var n := |es| - 1;
    assert es != [];
    LegalPrefix(es, n);
    var m, e := Run(es[..n]), es[n];
    if e.Store? && m.handlers[e.id].phase.under == key {
      i := n;
    } else {
      i := CachedWasStored(es[..n], key);
      assert es[..n][..i] == es[..i];
    }
  }

  /** Over any run, what is resent to a duplicate was stored under its key no more than the 30 seconds of the TTL ago. */
  lemma ResentIsRecent(es: seq<Event>, key: Key, at: int)
    requires Legal(es) && Check(Run(es).cache, Run(es).inFlight, key, at).Resend?
    ensures exists i: nat :: i < |es| && StoresHere(es, i, key, Check(Run(es).cache, Run(es).inFlight, key, at).raw) &&
                             at <= es[i].at + 30_000_000_000
  {
    var i := CachedWasStored(es, key);
    hide Legal, Run, StoresHere;
  }

  /** Storing leaves no expired entry behind, loses no other, and gives the new one its full time. */
  lemma StoreSweeps(cache: Cache, key: Key, raw: seq<byte>, at: int, k: Key)
    ensures var after := StoreIn(cache, key, raw, at);
            && key in after && after[key] == Cached(raw, at + 30_000_000_000)
            && (k in after ==> at <= after[k].expires)
            && (k != key ==> (k in after <==> k in cache && at <= cache[k].expires) && (k in after ==> after[k] == cache[k]))
  {
  }

  // ---- Duplicates after a reply -----------------------------------------------

  /** Handlers answer their own request, and no twins are ever in flight together. */
  ghost predicate Disciplined(es: seq<Event>)
    requires Legal(es)
    decreases |es|
  {
    && NoTwins(Run(es).inFlight)
    && (es == [] ||
        var m, e := Run(es[..|es| - 1]), es[|es| - 1];
        Disciplined(es[..|es| - 1]) && (e.Send? ==> Answers(e.raw, m.handlers[e.id].key)))
  }

  /** A handler that has not stored its reply has nothing cached, and stores under its own key. */
  predicate HandlerSound(m: Machine, h: Handler) {
    match h.phase
    case Working => h.key !in m.cache
    case Sent(raw) => h.key !in m.cache && Answers(raw, h.key)
    case Found(_, under) => h.key !in m.cache && under == h.key
    case Stored => true
  }

  ghost predicate Sound(m: Machine) {
    OneHandlerPerKey(m) && forall i :: i in m.handlers ==> HandlerSound(m, m.handlers[i])
  }

  lemma FindIsSound(m: Machine, e: Event)
    requires Sound(m) && NoTwins(m.inFlight) && Enabled(m, e) && e.FindKey?
    ensures e.under == m.handlers[e.id].key
  {
    var h := m.handlers[e.id];
    assert HandlerSound(m, h) && h.key in m.inFlight;
    FiledUnderOwnKeyIff(m.inFlight, h.key, h.phase.raw);
  }

  lemma StepKeepsSound(m: Machine, e: Event)
    requires Sound(m) && NoTwins(m.inFlight) && Enabled(m, e)
    requires e.Send? ==> Answers(e.raw, m.handlers[e.id].key)
    ensures Sound(Step(m, e))
  {
    hide Answers, ParseHeader, MayFile, OneHandlerPerKey, NoTwins, Step;
    StepKeepsOneHandler(m, e);
    if e.FindKey? {
      FindIsSound(m, e);
    }
    var n := Step(m, e);
    forall i | i in n.handlers ensures HandlerSound(n, n.handlers[i]) {
      StepKeepsHandlerSound(m, e, i);
    }
  }

  lemma StepKeepsHandlerSound(m: Machine, e: Event, i: nat)
    requires Sound(m) && Enabled(m, e)
    requires e.Send? ==> Answers(e.raw, m.handlers[e.id].key)
    requires e.FindKey? ==> e.under == m.handlers[e.id].key
    requires i in Step(m, e).handlers
    ensures HandlerSound(Step(m, e), Step(m, e).handlers[i])
  {
    hide Answers, ParseHeader, MayFile, OneHandlerPerKey;
    if i in m.handlers {
      assert HandlerSound(m, m.handlers[i]);
      if e.Store? {
        assert HandlerSound(m, m.handlers[e.id]);
        DistinctKeys(m, i, e.id);
      }
    }
  }

  lemma DistinctKeys(m: Machine, i: nat, j: nat)
    requires OneHandlerPerKey(m) && i in m.handlers && j in m.handlers
    ensures m.handlers[i].key == m.handlers[j].key ==> i == j
  {
  }

  lemma {:induction false} DisciplinedRunsAreSound(es: seq<Event>)
    requires Legal(es) && Disciplined(es)
    ensures Sound(Run(es))
    decreases |es|
  {
    if es != [] {
      DisciplinedRunsAreSound(es[..|es| - 1]);
      StepKeepsSound(Run(es[..|es| - 1]), es[|es| - 1]);
    }
  }

  /** When a handler stored its reply, if it has. */
  function StoredAt(es: seq<Event>, id: nat): Option<int> {
    if es == [] then None
    else
      var e := es[|es| - 1];
      if e.Store? && e.id == id then Some(e.at) else StoredAt(es[..|es| - 1], id)
  }

  /** What protects a key once its handler sent raw: the handler itself, then the cache until the TTL has passed. */
  predicate Shielded(m: Machine, id: nat, key: Key, raw: seq<byte>, stored: Option<int>) {
    match stored
    case None =>
      && id in m.handlers && m.handlers[id].key == key
      && (m.handlers[id].phase == Sent(raw) || m.handlers[id].phase == Found(raw, key))
    case Some(t) =>
      && id < m.started
      && (id in m.handlers ==> m.handlers[id].phase == Stored)
      && (m.clock <= t + TTL ==> key in m.cache && m.cache[key] == Cached(raw, t + TTL))
  }

  lemma StepKeepsShield(m: Machine, e: Event, id: nat, key: Key, raw: seq<byte>, stored: Option<int>)
    requires Sound(m) && NoTwins(m.inFlight) && Enabled(m, e)
    requires Shielded(m, id, key, raw, stored)
    ensures Shielded(Step(m, e), id, key, raw, if e.Store? && e.id == id then Some(e.at) else stored)
  {
    if e.FindKey? {
      FindIsSound(m, e);
    }
    if e.Store? {
      assert HandlerSound(m, m.handlers[e.id]);
    }
    hide Answers, ParseHeader, MayFile, NoTwins;
    assert m.started !in m.handlers;
  }

  lemma {:induction false} ShieldLasts(es: seq<Event>, i: nat, key: Key)
    requires Legal(es) && Disciplined(es) && i < |es| && es[i].Send?
    requires Legal(es[..i]) && es[i].id in Run(es[..i]).handlers && Run(es[..i]).handlers[es[i].id].key == key
    ensures Shielded(Run(es), es[i].id, key, es[i].raw, StoredAt(es, es[i].id))
    decreases |es|
  {
    var prefix := es[..|es| - 1];
    if i < |prefix| {
      assert prefix[..i] == es[..i];
      ShieldLasts(prefix, i, key);
      DisciplinedRunsAreSound(prefix);
      StepKeepsShield(Run(prefix), es[|es| - 1], es[i].id, key, es[i].raw, StoredAt(prefix, es[i].id));
    } else {
      assert prefix == es[..i];
      DisciplinedRunsAreSound(prefix);
      WorkingHasNotStored(prefix, es[i].id);
    }
  }

  /** A handler still working has stored nothing, and neither has one not yet started. */
  lemma {:induction false} WorkingHasNotStored(es: seq<Event>, id: nat)
    requires Legal(es)
    requires BeforeStore(Run(es), id)
    ensures StoredAt(es, id) == None
    decreases |es|
  {
    if es != [] {
      hide BeforeStore, Step;
      NoDuplicateHandlers(es[..|es| - 1]);
      BeforeStoreBackwards(Run(es[..|es| - 1]), es[|es| - 1], id);
      WorkingHasNotStored(es[..|es| - 1], id);
    }
  }

  predicate BeforeStore(m: Machine, id: nat) {
    if id in m.handlers then m.handlers[id].phase != Stored else m.started <= id
  }

  lemma BeforeStoreBackwards(m: Machine, e: Event, id: nat)
    requires OneHandlerPerKey(m) && Enabled(m, e) && BeforeStore(Step(m, e), id)
    ensures BeforeStore(m, id) && !(e.Store? && e.id == id)
  {
    hide ParseHeader, MayFile, CacheAfterCheck, StoreIn;
  }

  /**
   * At most once: after a handler sent its reply, a duplicate of its request never starts
   * another handler until the reply has been cached for the TTL. Before the reply is
   * stored the duplicate is dropped; from then on it gets the identical bytes.
   */
  lemma DuplicatesGetTheSameBytes(es: seq<Event>, i: nat, j: nat, key: Key)
    requires i < j < |es| && Legal(es) && Disciplined(es)
    requires es[i].Send? && Legal(es[..i]) && es[i].id in Run(es[..i]).handlers && Run(es[..i]).handlers[es[i].id].key == key
    requires es[j].Receive? && es[j].key == key && Legal(es[..j])
    ensures var m, verdict := Run(es[..j]), Check(Run(es[..j]).cache, Run(es[..j]).inFlight, key, es[j].at);
            match StoredAt(es[..j], es[i].id)
            case None => verdict == Drop
            case Some(t) => es[j].at <= t + TTL ==> verdict == Resend(es[i].raw)
  {
    var before := es[..j];
    DisciplinedPrefix(es, j);
    assert before[..i] == es[..i];
    ShieldLasts(before, i, key);
    DisciplinedRunsAreSound(before);
    DisciplinedPrefix(es, j + 1);
    var upto := es[..j + 1];
    assert upto[..|upto| - 1] == before && upto[j] == es[j];
    assert Enabled(Run(before), es[j]);
    hide Disciplined, Answers, MayFile;
    if StoredAt(before, es[i].id) == None {
      assert HandlerSound(Run(before), Run(before).handlers[es[i].id]);
    }
  }

  lemma {:induction false} DisciplinedPrefix(es: seq<Event>, i: nat)
    requires Legal(es) && Disciplined(es) && i <= |es|
    ensures Legal(es[..i]) && Disciplined(es[..i])
    decreases |es|
  {
    if i < |es| {
      DisciplinedPrefix(es[..|es| - 1], i);
      assert es[..|es| - 1][..i] == es[..i];
    } else {
      assert es[..i] == es;
    }
  }

  // ---- What goes wrong otherwise ----------------------------------------------

  lemma RunStep(es: seq<Event>, e: Event)
    requires Legal(es) && Enabled(Run(es), e)
    ensures Legal(es + [e]) && Run(es + [e]) == Step(Run(es), e)
  {
    assert (es + [e])[..|es|] == es;
  }

  /** Two requests that differ only in the TEID, handled at once; the first one's reply may be filed under the second. */
  function TwinRun(a: Key, b: Key, raw: seq<byte>): seq<Event> {
    [Receive(a, 0)] + [Receive(b, 0)] + [Send(0, raw)] + [FindKey(0, b)] + [Store(0, 0)] + [Return(0)]
  }

  /**
   * Then a duplicate of the first request runs its handler again, and a duplicate of the
   * second gets the first one's response: the no-twins condition cannot be dropped.
   */
  lemma TwinsBreakAtMostOnce(a: Key, b: Key, raw: seq<byte>)
    requires Twins(a, b) && a != b && Answers(raw, a)
    ensures var es := TwinRun(a, b, raw);
            && Legal(es)
            && Check(Run(es).cache, Run(es).inFlight, a, 1) == Start
            && Check(Run(es).cache, Run(es).inFlight, b, 1) == Resend(raw)
  {
    var h := ParseHeader(raw).value.header;
    var m1 := Machine(map[], {a}, map[0 := Handler(a, Working)], 1, 0);
    var m2 := Machine(map[], {a, b}, map[0 := Handler(a, Working), 1 := Handler(b, Working)], 2, 0);
    var m3 := SetPhase(m2, 0, Sent(raw));
    var m4 := SetPhase(m2, 0, Found(raw, b));
    var m5 := SetPhase(m2, 0, Stored).(cache := map[b := Cached(raw, TTL)]);
    assert MayFile({a, b}, a.addr, h, b) by {
      assert Answerable({a, b}, a.addr, h.sequenceNumber, a.msgType, b);
    }
    hide ParseHeader, Answers, MayFile, Legal, Run;
    RunStep([], Receive(a, 0)) by { FirstReceive(a); }
    var es := [Receive(a, 0)];
    assert [] + es == es;
    RunStep(es, Receive(b, 0));
    es := es + [Receive(b, 0)];
    assert Run(es) == m2;
    assert ParseHeader(raw).Ok? by { AnswersParse(raw, a); }
    RunStep(es, Send(0, raw));
    es := es + [Send(0, raw)];
    assert Run(es) == m3;
    RunStep(es, FindKey(0, b));
    es := es + [FindKey(0, b)];
    assert Run(es) == m4;
    RunStep(es, Store(0, 0));
    es := es + [Store(0, 0)];
    assert Run(es) == m5;
    RunStep(es, Return(0));
  }

  lemma FirstReceive(a: Key)
    ensures Legal([]) && Enabled(Run([]), Receive(a, 0)) && Run([]) == IDLE
  {
  }

  lemma AnswersParse(raw: seq<byte>, key: Key)
    requires Answers(raw, key)
    ensures ParseHeader(raw).Ok?
  {
  }

  /**
   * A reply sent after its handler returned is filed under TEID zero, so it protects
   * against duplicates exactly when the request carried TEID zero.
   */
  lemma LateReplyProtectsIff(cache: Cache, inFlight: set<Key>, key: Key, raw: seq<byte>, at: int)
    requires Answers(raw, key) && key !in cache
    requires forall k :: k in inFlight ==> !Twins(k, key)
    ensures (forall k :: MayFile(inFlight, key.addr, ParseHeader(raw).value.header, k) ==>
               Check(StoreIn(cache, k, raw, at), inFlight, key, at) == Resend(raw)) <==>
            key.teid == 0
  {
    var h := ParseHeader(raw).value.header;
    hide ParseHeader;
    var filed := key.(teid := 0);
    assert forall k :: MayFile(inFlight, key.addr, h, k) <==> k == filed;
    var after := StoreIn(cache, filed, raw, at);
    assert filed in after && after[filed] == Cached(raw, at + TTL);
    assert key.teid == 0 ==> key == filed;
    assert key.teid != 0 ==> key !in after && MayFile(inFlight, key.addr, h, filed);
  }

  // ---- The connection's tables ------------------------------------------------

  class Conn {
    var inboundCache: Cache
    var inFlight: set<Key>
    var seqVal: u32

    constructor ()
      ensures inboundCache == map[] && inFlight == {} && seqVal == 0
    {
      inboundCache, inFlight, seqVal := map[], {}, 0;
    }

    method CheckAndMarkInFlight(key: Key, at: int) returns (cached: Option<seq<byte>>, busy: bool)
      modifies this`inboundCache, this`inFlight
      ensures var verdict := Check(old(inboundCache), old(inFlight), key, at);
              && cached == (match verdict case Resend(raw) => Some(raw) case _ => None)
              && busy == (verdict == Drop)
              && inFlight == old(inFlight) + if verdict == Start then {key} else {}
      ensures inboundCache == CacheAfterCheck(old(inboundCache), key, at)
    {
      if key in inboundCache {
        var entry := inboundCache[key];
        if !(at > entry.expires) {
          return Some(entry.raw), false;
        }
        inboundCache := inboundCache - {key};
      }
      if key in inFlight {
        return None, true;
      }
      inFlight := inFlight + {key};
      return None, false;
    }

    method ClearInFlight(key: Key)
      modifies this`inFlight
      ensures inFlight == old(inFlight) - {key}
    {
      inFlight := inFlight - {key};
    }

    /** Sweeps every expired entry, in any order, then stores. */
    method StoreInboundCache(key: Key, resp: seq<byte>, at: int)
      modifies this`inboundCache
      ensures inboundCache == StoreIn(old(inboundCache), key, resp, at)
    {
      var todo := inboundCache.Keys;
      while todo != {}
        invariant todo <= inboundCache.Keys <= old(inboundCache).Keys
        invariant forall k :: k in inboundCache ==> inboundCache[k] == old(inboundCache)[k]
        invariant forall k :: k in old(inboundCache) && k !in todo ==>
                    (k in inboundCache <==> at <= old(inboundCache)[k].expires)
        decreases |todo|
      {
        var k :| k in todo;
        todo := todo - {k};
        if at > inboundCache[k].expires {
          inboundCache := inboundCache - {k};
        }
      }
      assert inboundCache == Sweep(old(inboundCache), at);
      inboundCache := inboundCache[key := Cached(resp, at + TTL)];
    }

    /** The first matching key the iteration happens to meet. */
    method InFlightRetransmitKeyForResponse(addr: string, h: Header) returns (k: Key)
      ensures MayFile(inFlight, addr, h, k)
    {
      var reqType := RequestTypeForResponse(h.messageType);
      if reqType == None {
        return Key(addr, h.sequenceNumber, h.messageType, h.teid);
      }
      var todo := inFlight;
      while todo != {}
        invariant todo <= inFlight
        invariant forall c :: c in inFlight && c !in todo ==> !Answerable(inFlight, addr, h.sequenceNumber, reqType.value, c)
        decreases |todo|
      {
        k :| k in todo;
        if k.addr == addr && k.seqNo == h.sequenceNumber && k.msgType == reqType.value {
          assert Answerable(inFlight, addr, h.sequenceNumber, reqType.value, k);
          return;
        }
        todo := todo - {k};
      }
      return Key(addr, h.sequenceNumber, reqType.value, 0);
    }

    /** One reply with no other step in between; sent says whether the socket took it. */
    method Reply(addr: string, raw: seq<byte>, sent: bool, at: int) returns (ok: bool)
      modifies this`inboundCache
      ensures ok == sent
      ensures if sent && ParseHeader(raw).Ok? then
                exists k :: MayFile(inFlight, addr, ParseHeader(raw).value.header, k) &&
                            inboundCache == StoreIn(old(inboundCache), k, raw, at)
              else inboundCache == old(inboundCache)
    {
      hide MayFile, StoreIn;
      if !sent {
        return false;
      }
      var parsed := ParseHeader(raw);
      if parsed.Ok? {
        var key := InFlightRetransmitKeyForResponse(addr, parsed.value.header);
        StoreInboundCache(key, raw, at);
      }
      return true;
    }

    method AllocSeq() returns (v: u32)
      modifies this`seqVal
      ensures v == seqVal == (old(seqVal) + 1) % 0x100_0000
    {
      seqVal := (seqVal + 1) % 0x100_0000;
      v := seqVal;
    }
  }
}
