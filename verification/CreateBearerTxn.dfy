/**
 * Create Bearer transactions towards the PGW (internal/sgwc/s11/bearer_handler.go): requests
 * are recognised by transaction key or by body fingerprint, and a piggybacked request waits
 * for the MME's answer or a timer. Each step below holds the transaction lock once.
 * Transaction objects are numbered; the maps hold numbers where the source holds references.
 */
module CreateBearerTxn {
  import opened Wrappers
  import opened Bytes
  import opened Messages

  datatype Key = Key(peer: string, teid: u32, msgType: byte, seqNo: u32)

  /** The body stands for its hash. */
  datatype Fingerprint = Fingerprint(peer: string, teid: u32, lbi: byte, body: seq<byte>)

  datatype S11Key = S11Key(mme: string, seqNo: u32)

  /** How far the one handler of a transaction has come. */
  datatype Phase = Begun | Provisioning | Provisioned | Waiting(at: S11Key) | Answered | TimedOut | Finished

  datatype Txn = Txn(key: Key, fp: Fingerprint, response: Option<seq<byte>>, phase: Phase)

  datatype Resolution = Resolution(txn: nat, answered: bool)

  datatype State = State(
    cbTxns: map<Key, nat>, cbFPs: map<Fingerprint, nat>, cbS11: map<S11Key, nat>, txns: seq<Txn>,
    provisions: seq<nat>, resolutions: seq<Resolution>)

  const EMPTY: State := State(map[], map[], map[], [], [], [])

  datatype Action = New | Pending | Cached | FingerprintPending | FingerprintCached

  datatype Event =
    | Request(key: Key, fp: Fingerprint)
    | StartProvisioning(txn: nat)
    | Installed(txn: nat)
    | Register(txn: nat, at: S11Key)
    | Response(at: S11Key)
    | Timer(at: S11Key)
    | Complete(txn: nat, raw: seq<byte>)
    | Abandon(txn: nat)

  // ---- Steps ------------------------------------------------------------------

  function TxnFor(s: State, key: Key, fp: Fingerprint): Option<nat> {
    if key in s.cbTxns then Some(s.cbTxns[key])
    else if fp in s.cbFPs then Some(s.cbFPs[fp])
    else None
  }

  function ActionFor(s: State, key: Key, fp: Fingerprint): Action {
    match TxnFor(s, key, fp)
    case None => New
    case Some(n) =>
      var done := n < |s.txns| && s.txns[n].response.Some?;
      if key in s.cbTxns then (if done then Cached else Pending)
      else if done then FingerprintCached else FingerprintPending
  }

  /** A request with a known fingerprint becomes an alias; only an unknown one starts a transaction. */
  function Begin(s: State, key: Key, fp: Fingerprint): State {
    match TxnFor(s, key, fp)
    case Some(n) => s.(cbTxns := s.cbTxns[key := n])
    case None =>
      s.(cbTxns := s.cbTxns[key := |s.txns|], cbFPs := s.cbFPs[fp := |s.txns|], txns := s.txns + [Txn(key, fp, None, Begun)])
  }

  function SetPhase(s: State, n: nat, p: Phase): State
    requires n < |s.txns|
  {
    s.(txns := s.txns[n := s.txns[n].(phase := p)])
  }

  /** The entry is filed whatever was there under that key. */
  function Registered(s: State, n: nat, at: S11Key): State
    requires n < |s.txns|
  {
    SetPhase(s, n, Waiting(at)).(cbS11 := s.cbS11[at := n])
  }

  /** Whoever finds the pending entry removes it and carries on alone. */
  function Resolve(s: State, at: S11Key, answered: bool): State {
    if at !in s.cbS11 || s.cbS11[at] >= |s.txns| then s
    else
      SetPhase(s, s.cbS11[at], if answered then Answered else TimedOut)
        .(cbS11 := s.cbS11 - {at}, resolutions := s.resolutions + [Resolution(s.cbS11[at], answered)])
  }

  /** A transaction that starts provisioning and fails is finished with an error. */
  predicate CanFinish(p: Phase) {
    p == Begun || p == Provisioning || p == Provisioned || p == Answered || p == TimedOut
  }

  /** A response built for a request carries its sequence number. */
  predicate Answers(raw: seq<byte>, seqNo: u32) {
    ParseHeader(raw).Ok? && ParseHeader(raw).value.header.sequenceNumber == seqNo
  }

  predicate Enabled(s: State, e: Event) {
    match e
    case Request(key, fp) => fp.peer == key.peer && fp.teid == key.teid
    case StartProvisioning(n) => n < |s.txns| && s.txns[n].phase == Begun
    case Installed(n) => n < |s.txns| && s.txns[n].phase == Provisioning
    case Register(n, at) => n < |s.txns| && s.txns[n].phase == Provisioned && at !in s.cbS11
    case Response(_) => true
    case Timer(_) => true
    case Complete(n, raw) => n < |s.txns| && CanFinish(s.txns[n].phase) && Answers(raw, s.txns[n].key.seqNo)
    case Abandon(n) => n < |s.txns| && CanFinish(s.txns[n].phase)
  }

  function Step(s: State, e: Event): State
    requires Enabled(s, e)
  {
    match e
    case Request(key, fp) => Begin(s, key, fp)
    case StartProvisioning(n) => SetPhase(s, n, Provisioning).(provisions := s.provisions + [n])
    case Installed(n) => SetPhase(s, n, Provisioned)
    case Register(n, at) => Registered(s, n, at)
    case Response(at) => Resolve(s, at, true)
    case Timer(at) => Resolve(s, at, false)
    case Complete(n, raw) =>
      var t := SetPhase(s, n, Finished);
      t.(txns := t.txns[n := t.txns[n].(response := Some(raw))])
    case Abandon(n) => SetPhase(s, n, Finished)
  }

  ghost predicate Legal(es: seq<Event>)
    decreases |es|, 0
  {
    es == [] || (Legal(es[..|es| - 1]) && Enabled(Run(es[..|es| - 1]), es[|es| - 1]))
  }

  ghost function Run(es: seq<Event>): State
    requires Legal(es)
    decreases |es|, 1
  {
    if es == [] then EMPTY else Step(Run(es[..|es| - 1]), es[|es| - 1])
  }

  // ---- Invariant --------------------------------------------------------------

  /** Every transaction is found under its own key and its own fingerprint; aliases share the fingerprint's peer and TEID. */
  ghost predicate Indexed(s: State) {
    && (forall k :: k in s.cbTxns ==> s.cbTxns[k] < |s.txns|)
    && (forall f :: f in s.cbFPs ==> s.cbFPs[f] < |s.txns| && s.txns[s.cbFPs[f]].fp == f)
    && (forall n :: 0 <= n < |s.txns| ==> s.txns[n].key in s.cbTxns && s.cbTxns[s.txns[n].key] == n)
    && (forall n :: 0 <= n < |s.txns| ==> s.txns[n].fp in s.cbFPs && s.cbFPs[s.txns[n].fp] == n)
  }

  /** The waiting transactions are exactly the pending entries. */
  ghost predicate PendingsMatch(s: State) {
    && (forall at :: at in s.cbS11 ==> s.cbS11[at] < |s.txns| && s.txns[s.cbS11[at]].phase == Waiting(at))
    && (forall n :: 0 <= n < |s.txns| && s.txns[n].phase.Waiting? ==>
          s.txns[n].phase.at in s.cbS11 && s.cbS11[s.txns[n].phase.at] == n)
  }

  predicate NoRepeats(log: seq<nat>) {
    forall i, j :: 0 <= i < j < |log| ==> log[i] != log[j]
  }

  predicate ResolvedOnce(log: seq<Resolution>) {
    forall i, j :: 0 <= i < j < |log| ==> log[i].txn != log[j].txn
  }

  /** The logs hold only transactions past the logged point, each at most once. */
  ghost predicate LogsMatch(s: State) {
    && NoRepeats(s.provisions) && ResolvedOnce(s.resolutions)
    && (forall i :: 0 <= i < |s.provisions| ==> s.provisions[i] < |s.txns| && s.txns[s.provisions[i]].phase != Begun)
    && (forall i :: 0 <= i < |s.resolutions| ==>
          var n := s.resolutions[i].txn;
          n < |s.txns| && s.txns[n].phase in {Answered, TimedOut, Finished})
  }

  /** Only finished transactions have a response, and it is one to their own request. */
  ghost predicate ResponsesMatch(s: State) {
    forall n :: 0 <= n < |s.txns| && s.txns[n].response.Some? ==>
      s.txns[n].phase == Finished && Answers(s.txns[n].response.value, s.txns[n].key.seqNo)
  }

  ghost predicate Inv(s: State) {
    Indexed(s) && PendingsMatch(s) && LogsMatch(s) && ResponsesMatch(s)
  }

  lemma BeginKeepsInv(s: State, key: Key, fp: Fingerprint)
    requires Inv(s)
    ensures Inv(Begin(s, key, fp))
  {
    hide Answers, Indexed, PendingsMatch, LogsMatch, ResponsesMatch;
    BeginKeepsIndexed(s, key, fp);
    var t := Begin(s, key, fp);
    StartedKeepsPendings(s, t);
    StartedKeepsLogs(s, t);
  }

  /** A newly started transaction waits for nothing, is in no log and has no response. */
  predicate OnlyStarts(s: State, t: State) {
    && t.cbS11 == s.cbS11 && t.provisions == s.provisions && t.resolutions == s.resolutions
    && |s.txns| <= |t.txns|
    && (forall n :: 0 <= n < |s.txns| ==> t.txns[n] == s.txns[n])
    && (forall n :: |s.txns| <= n < |t.txns| ==> t.txns[n].phase == Begun && t.txns[n].response == None)
  }

  lemma StartedKeepsPendings(s: State, t: State)
    requires OnlyStarts(s, t)
    ensures PendingsMatch(s) ==> PendingsMatch(t)
    ensures ResponsesMatch(s) ==> ResponsesMatch(t)
  {
    hide Answers;
  }

  lemma StartedKeepsLogs(s: State, t: State)
    requires OnlyStarts(s, t)
    ensures LogsMatch(s) ==> LogsMatch(t)
  {
  }

  lemma BeginKeepsIndexed(s: State, key: Key, fp: Fingerprint)
    requires Indexed(s)
    ensures Indexed(Begin(s, key, fp))
  {
  }

  lemma SetPhaseKeepsIndexed(s: State, n: nat, txn: Txn)
    requires Indexed(s) && n < |s.txns| && txn.key == s.txns[n].key && txn.fp == s.txns[n].fp
    ensures Indexed(s.(txns := s.txns[n := txn]))
  {
  }

  lemma StartKeepsInv(s: State, n: nat)
    requires Inv(s) && Enabled(s, StartProvisioning(n))
    ensures Inv(Step(s, StartProvisioning(n)))
  {
    hide Answers, Indexed;
    var t := Step(s, StartProvisioning(n));
    SetPhaseKeepsIndexed(s, n, t.txns[n]);
    OnlyIndexes(s.(txns := t.txns), t);
  }

  lemma InstalledKeepsInv(s: State, n: nat)
    requires Inv(s) && Enabled(s, Installed(n))
    ensures Inv(Step(s, Installed(n)))
  {
    hide Answers, Indexed;
    var t := Step(s, Installed(n));
    SetPhaseKeepsIndexed(s, n, t.txns[n]);
    OnlyIndexes(s.(txns := t.txns), t);
  }

  /** Indexing depends on the two maps and the transactions alone. */
  lemma OnlyIndexes(s: State, t: State)
    requires Indexed(s) && t.cbTxns == s.cbTxns && t.cbFPs == s.cbFPs && t.txns == s.txns
    ensures Indexed(t)
  {
  }

  lemma RegisterKeepsInv(s: State, n: nat, at: S11Key)
    requires Inv(s) && Enabled(s, Register(n, at))
    ensures Inv(Step(s, Register(n, at)))
  {
    hide Answers, Indexed;
    var t := Step(s, Register(n, at));
    SetPhaseKeepsIndexed(s, n, t.txns[n]);
    OnlyIndexes(s.(txns := t.txns), t);
  }

  lemma ResolveKeepsInv(s: State, at: S11Key, answered: bool)
    requires Inv(s)
    ensures Inv(Resolve(s, at, answered))
  {
    hide Answers, Indexed;
    var t := Resolve(s, at, answered);
    if at in s.cbS11 {
      var n := s.cbS11[at];
      SetPhaseKeepsIndexed(s, n, t.txns[n]);
      OnlyIndexes(s.(txns := t.txns), t);
      assert forall i :: 0 <= i < |s.resolutions| ==> s.resolutions[i].txn != n;
    }
  }

  lemma FinishKeepsInv(s: State, e: Event)
    requires Inv(s) && Enabled(s, e) && (e.Complete? || e.Abandon?)
    ensures Inv(Step(s, e))
  {
    hide Answers, Indexed;
    var t := Step(s, e);
    assert t.txns == s.txns[e.txn := t.txns[e.txn]];
    SetPhaseKeepsIndexed(s, e.txn, t.txns[e.txn]);
    OnlyIndexes(s.(txns := t.txns), t);
  }

  lemma StepKeepsInv(s: State, e: Event)
    requires Inv(s) && Enabled(s, e)
    ensures Inv(Step(s, e))
  {
    match e
    case Request(key, fp) => BeginKeepsInv(s, key, fp);
    case StartProvisioning(n) => StartKeepsInv(s, n);
    case Installed(n) => InstalledKeepsInv(s, n);
    case Register(n, at) => RegisterKeepsInv(s, n, at);
    case Response(at) => ResolveKeepsInv(s, at, true);
    case Timer(at) => ResolveKeepsInv(s, at, false);
    case Complete(_, _) => FinishKeepsInv(s, e);
    case Abandon(_) => FinishKeepsInv(s, e);
  }

  lemma {:induction false} RunKeepsInv(es: seq<Event>)
    requires Legal(es)
    ensures Inv(Run(es))
    decreases |es|
  {
    if es != [] {
      hide Inv, Step, Enabled;
      RunKeepsInv(es[..|es| - 1]);
      StepKeepsInv(Run(es[..|es| - 1]), es[|es| - 1]);
    }
  }

  // ---- At most once -----------------------------------------------------------

  /**
   * Under every interleaving, no two provisioning starts, successful or not, are for the same
   * transaction key or for the same body fingerprint.
   */
  lemma ProvisionedOncePerKeyAndBody(es: seq<Event>, i: nat, j: nat)
    requires Legal(es) && i < j < |Run(es).provisions|
    ensures var s := Run(es);
            var a, b := s.provisions[i], s.provisions[j];
            && a < |s.txns| && b < |s.txns|
            && s.txns[a].key != s.txns[b].key && s.txns[a].fp != s.txns[b].fp
  {
    hide Run, Answers;
    RunKeepsInv(es);
  }

  /** A pending piggybacked request is answered or timed out, never both and never twice. */
  lemma AnsweredOrTimedOutOnce(es: seq<Event>, i: nat, j: nat)
    requires Legal(es) && i < j < |Run(es).resolutions|
    ensures Run(es).resolutions[i].txn != Run(es).resolutions[j].txn
  {
    hide Run, Answers;
    RunKeepsInv(es);
  }

  /**
   * Exactly when registering keeps every waiting request pending: the S11 key must be free, or
   * the request that had it waits for an answer that no longer finds it, and for a timer too.
   */
  lemma RegisterKeepsPendingsIff(s: State, n: nat, at: S11Key)
    requires Inv(s) && n < |s.txns| && s.txns[n].phase == Provisioned
    ensures PendingsMatch(Registered(s, n, at)) <==> at !in s.cbS11
  {
    hide Answers, Indexed, LogsMatch;
    var t := Registered(s, n, at);
    if at in s.cbS11 {
      var m := s.cbS11[at];
      assert m != n && t.txns[m] == s.txns[m] && t.txns[m].phase == Waiting(at) && t.cbS11[at] == n;
    }
  }

  /** Once registered, a pending request stays until a response or the timer takes it: none is lost. */
  lemma {:induction false} WaitingIsPending(es: seq<Event>, n: nat)
    requires Legal(es) && n < |Run(es).txns| && Run(es).txns[n].phase.Waiting?
    ensures var at := Run(es).txns[n].phase.at;
            at in Run(es).cbS11 && Run(es).cbS11[at] == n
  {
    hide Run, Answers;
    RunKeepsInv(es);
  }

  // ---- Repeated requests ------------------------------------------------------

  /** Every prefix of a legal run is legal: asking it of a prefix below asks nothing more. */
  lemma {:induction false} LegalPrefix(es: seq<Event>, i: nat)
    requires Legal(es) && i <= |es|
    ensures Legal(es[..i])
    decreases |es|
  {
    if i < |es| {
      LegalPrefix(es[..|es| - 1], i);
      assert es[..|es| - 1][..i] == es[..i];
    } else {
      assert es[..i] == es;
    }
  }

  lemma StepKeepsAnswers(s: State, e: Event, key: Key)
    requires Inv(s) && Enabled(s, e) && key in s.cbTxns
    ensures var t := Step(s, e);
            && key in t.cbTxns && t.cbTxns[key] == s.cbTxns[key] < |t.txns|
            && t.txns[t.cbTxns[key]].key == s.txns[s.cbTxns[key]].key
            && (s.txns[s.cbTxns[key]].response.Some? ==> t.txns[t.cbTxns[key]].response == s.txns[s.cbTxns[key]].response)
  {
    hide Answers;
  }

  /** From the first request under a key on, the key stands for one transaction, and its response once set never changes. */
  lemma {:induction false} AnswersAreStable(es: seq<Event>, i: nat, key: Key)
    requires Legal(es) && i <= |es| && Legal(es[..i]) && key in Run(es[..i]).cbTxns
    ensures var s, t := Run(es[..i]), Run(es);
            && key in t.cbTxns && t.cbTxns[key] == s.cbTxns[key] < |s.txns| <= |t.txns|
            && (s.txns[s.cbTxns[key]].response.Some? ==> t.txns[t.cbTxns[key]].response == s.txns[s.cbTxns[key]].response)
    decreases |es|
  {
    RunKeepsInv(es[..i]);
    if i < |es| {
      var prefix := es[..|es| - 1];
      assert prefix[..i] == es[..i];
      AnswersAreStable(prefix, i, key);
      RunKeepsInv(prefix);
      StepKeepsAnswers(Run(prefix), es[|es| - 1], key);
      TxnsGrow(Run(prefix), es[|es| - 1]);
    } else {
      assert es[..i] == es;
    }
  }

  lemma TxnsGrow(s: State, e: Event)
    requires Enabled(s, e)
    ensures |s.txns| <= |Step(s, e).txns|
  {
  }

  /** What a repeated request is answered with: the cached bytes, cloned only when met by fingerprint. */
  function Reply(s: State, key: Key, fp: Fingerprint): Option<seq<byte>> {
    match TxnFor(s, key, fp)
    case None => None
    case Some(n) =>
      if n >= |s.txns| || s.txns[n].response.None? then None
      else if key in s.cbTxns then s.txns[n].response
      else
        match CloneForSequence(s.txns[n].response.value, key.seqNo)
        case Ok(raw) => Some(raw)
        case Err(_) => None
  }

  ghost predicate Requested(es: seq<Event>, key: Key) {
    exists i :: 0 <= i < |es| && es[i].Request? && es[i].key == key
  }

  lemma {:induction false} RequestedIsKnown(es: seq<Event>, key: Key)
    requires Legal(es)
    ensures key in Run(es).cbTxns <==> Requested(es, key)
    decreases |es|
  {
    if es != [] {
      hide Enabled;
      var prefix, e := es[..|es| - 1], es[|es| - 1];
      RequestedIsKnown(prefix, key);
      assert es == prefix + [e];
      assert Requested(es, key) <==> Requested(prefix, key) || (e.Request? && e.key == key) by {
        if Requested(prefix, key) {
          var i :| 0 <= i < |prefix| && prefix[i].Request? && prefix[i].key == key;
          assert es[i].Request? && es[i].key == key;
        }
      }
    }
  }

  /**
   * Over any run: a request is new when neither its key was requested before nor its body is
   * known; a known key comes before a known body, and what is cached is an answer given.
   */
  lemma ActionMeans(es: seq<Event>, key: Key, fp: Fingerprint)
    requires Legal(es)
    ensures var s, action := Run(es), ActionFor(Run(es), key, fp);
            && (action == New <==> !Requested(es, key) && forall n :: 0 <= n < |s.txns| ==> s.txns[n].fp != fp)
            && (action in {Pending, Cached} <==> Requested(es, key))
            && (action == Cached <==> Requested(es, key) && key in s.cbTxns && s.cbTxns[key] < |s.txns| && s.txns[s.cbTxns[key]].response.Some?)
            && (action == FingerprintCached <==>
                  !Requested(es, key) && exists n :: 0 <= n < |s.txns| && s.txns[n].fp == fp && s.txns[n].response.Some?)
  {
    hide Run, Answers, Requested, PendingsMatch, LogsMatch;
    RunKeepsInv(es);
    RequestedIsKnown(es, key);
    var s := Run(es);
    KnownBodies(s, fp);
  }

  lemma KnownBodies(s: State, fp: Fingerprint)
    requires Indexed(s)
    ensures fp in s.cbFPs <==> exists n :: 0 <= n < |s.txns| && s.txns[n].fp == fp
    ensures forall n :: 0 <= n < |s.txns| && s.txns[n].fp == fp ==> fp in s.cbFPs && s.cbFPs[fp] == n
  {
    if fp in s.cbFPs {
      assert s.txns[s.cbFPs[fp]].fp == fp;
    }
  }

  /** Once answered, a request repeated under its own key is answered with the same bytes for the rest of the run. */
  lemma AnsweredIsRepeated(es: seq<Event>, i: nat, fp: Fingerprint)
    requires Legal(es) && i < |es| && es[i].Complete? && Legal(es[..i]) && es[i].txn < |Run(es[..i]).txns|
    ensures var key := Run(es[..i]).txns[es[i].txn].key;
            ActionFor(Run(es), key, fp) == Cached && Reply(Run(es), key, fp) == Some(es[i].raw)
  {
    LegalPrefix(es, i + 1);
    var upto := es[..i + 1];
    assert upto[..|upto| - 1] == es[..i] && upto[i] == es[i];
    hide Answers, Legal, Enabled;
    RunKeepsInv(es[..i]);
    var key := Run(es[..i]).txns[es[i].txn].key;
    CompletedHas(Run(es[..i]), es[i]);
    assert Run(upto) == Step(Run(es[..i]), es[i]) by { LastStepOf(upto); }
    AnswersAreStable(es, i + 1, key);
  }

  lemma LastStepOf(es: seq<Event>)
    requires Legal(es) && es != []
    ensures Legal(es[..|es| - 1]) && Enabled(Run(es[..|es| - 1]), es[|es| - 1])
    ensures Run(es) == Step(Run(es[..|es| - 1]), es[|es| - 1])
  {
  }

  lemma CompletedHas(s: State, e: Event)
    requires Inv(s) && e.Complete? && Enabled(s, e)
    ensures var t, key := Step(s, e), s.txns[e.txn].key;
            key in t.cbTxns && t.cbTxns[key] == e.txn < |t.txns| && t.txns[e.txn].response == Some(e.raw)
  {
    hide Answers;
  }

  /**
   * Exactly when a cached answer carries the sequence number of the request it answers. A
   * body repeated under a new sequence number is answered rightly the first time, but its
   * retransmissions get the original sequence number.
   */
  lemma ReplySequenceIff(es: seq<Event>, key: Key, fp: Fingerprint)
    requires Legal(es) && key.seqNo < 0x100_0000 && Reply(Run(es), key, fp).Some?
    ensures var s := Run(es);
            Answers(Reply(s, key, fp).value, key.seqNo) <==>
            key !in s.cbTxns || (s.cbTxns[key] < |s.txns| && s.txns[s.cbTxns[key]].key.seqNo == key.seqNo)
  {
    hide Run, ParseHeader, CloneForSequence;
    RunKeepsInv(es);
    var s := Run(es);
    var n := TxnFor(s, key, fp).value;
    if key !in s.cbTxns {
      CloneAnswers(s.txns[n].response.value, key.seqNo);
    }
  }

  lemma CloneAnswers(raw: seq<byte>, seqNo: u32)
    requires CloneForSequence(raw, seqNo).Ok? && seqNo < 0x100_0000
    ensures Answers(CloneForSequence(raw, seqNo).value, seqNo)
  {
    assert Parse(raw).Ok?;
    hide ParseHeader, CloneForSequence;
    CloneChangesOnlySequence(raw, seqNo);
    ParsedHeader(CloneForSequence(raw, seqNo).value);
  }

  lemma ParsedHeader(b: seq<byte>)
    requires Parse(b).Ok?
    ensures ParseHeader(b).Ok? && ParseHeader(b).value.header == Parse(b).value.header
  {
    hide ParseHeader;
  }

  /** A repeated body asked for once more gets the response to the original request. */
  lemma SecondRepeatMissesSequence(a: Key, b: Key, fp: Fingerprint, raw: seq<byte>)
    requires a != b && a.(seqNo := b.seqNo) == b && fp.peer == a.peer && fp.teid == a.teid
    requires Answers(raw, a.seqNo)
    ensures var es := [Request(a, fp)] + [Complete(0, raw)] + [Request(b, fp)];
            && Legal(es)
            && ActionFor(Run(es), b, fp) == Cached
            && Reply(Run(es), b, fp) == Some(raw) && !Answers(raw, b.seqNo)
  {
    hide Answers;
    var e0, e1, e2 := Request(a, fp), Complete(0, raw), Request(b, fp);
    RunStep([], e0);
    assert [] + [e0] == [e0];
    RunStep([e0], e1);
    RunStep([e0] + [e1], e2);
    OneSequence(raw, a.seqNo, b.seqNo);
  }

  lemma OneSequence(raw: seq<byte>, x: u32, y: u32)
    requires Answers(raw, x) && x != y
    ensures !Answers(raw, y)
  {
    hide ParseHeader;
  }

  lemma RunStep(es: seq<Event>, e: Event)
    requires Legal(es) && Enabled(Run(es), e)
    ensures Legal(es + [e]) && Run(es + [e]) == Step(Run(es), e)
  {
    assert (es + [e])[..|es|] == es;
  }

  // ---- The handler's maps -----------------------------------------------------

  class Transactions {
    var cbTxns: map<Key, nat>
    var cbFPs: map<Fingerprint, nat>
    var cbS11: map<S11Key, nat>
    var txns: seq<Txn>
    ghost var provisions: seq<nat>
    ghost var resolutions: seq<Resolution>

    ghost function View(): State
      reads this
    {
      State(cbTxns, cbFPs, cbS11, txns, provisions, resolutions)
    }

    constructor ()
      ensures View() == EMPTY
    {
      cbTxns, cbFPs, cbS11, txns, provisions, resolutions := map[], map[], map[], [], [], [];
    }

    /** Finds the transaction of a request, or starts one. */
    method BeginCreateBearerTxn(key: Key, fp: Fingerprint) returns (n: nat, action: Action)
      requires Indexed(View())
      modifies this
      ensures View() == Begin(old(View()), key, fp)
      ensures action == ActionFor(old(View()), key, fp)
      ensures n < |txns| && cbTxns[key] == n
    {
      if key in cbTxns {
        n := cbTxns[key];
        return n, if txns[n].response.Some? then Cached else Pending;
      }
      if fp in cbFPs {
        n := cbFPs[fp];
        cbTxns := cbTxns[key := n];
        return n, if txns[n].response.Some? then FingerprintCached else FingerprintPending;
      }
      n := |txns|;
      txns := txns + [Txn(key, fp, None, Begun)];
      cbTxns := cbTxns[key := n];
      cbFPs := cbFPs[fp := n];
      return n, New;
    }

    /** The handler turns to the SGW-U: a transaction of its own, begun and nothing more. */
    method StartProvisioning(n: nat)
      requires Enabled(View(), Event.StartProvisioning(n))
      modifies this
      ensures View() == Step(old(View()), Event.StartProvisioning(n))
    {
      txns := txns[n := txns[n].(phase := Provisioning)];
      provisions := provisions + [n];
    }

    method MarkProvisioned(n: nat)
      requires n < |txns|
      modifies this
      ensures View() == SetPhase(old(View()), n, Provisioned)
      ensures Enabled(old(View()), Installed(n)) ==> View() == Step(old(View()), Installed(n))
    {
      txns := txns[n := txns[n].(phase := Provisioned)];
    }

    method RegisterPendingS11CreateBearer(n: nat, at: S11Key)
      requires n < |txns|
      modifies this
      ensures View() == Registered(old(View()), n, at)
      ensures Enabled(old(View()), Register(n, at)) ==> View() == Step(old(View()), Register(n, at))
    {
      txns := txns[n := txns[n].(phase := Waiting(at))];
      cbS11 := cbS11[at := n];
    }

    /** The response handler and the timer both take the entry this way; the second one finds none. */
    method PopPendingS11CreateBearer(at: S11Key, answered: bool) returns (n: Option<nat>)
      requires PendingsMatch(View())
      modifies this
      ensures n == if at in old(cbS11) then Some(old(cbS11)[at]) else None
      ensures View() == Resolve(old(View()), at, answered)
    {
      if at !in cbS11 {
        return None;
      }
      n := Some(cbS11[at]);
      cbS11 := cbS11 - {at};
      txns := txns[n.value := txns[n.value].(phase := if answered then Answered else TimedOut)];
      resolutions := resolutions + [Resolution(n.value, answered)];
    }

    /** Looks the transaction up by its own key, as the handlers do. */
    method CompleteCreateBearerTxn(n: nat, raw: seq<byte>)
      requires Indexed(View()) && Enabled(View(), Complete(n, raw))
      modifies this
      ensures View() == Step(old(View()), Complete(n, raw))
    {
      var found := cbTxns[txns[n].key];
      txns := txns[found := txns[found].(phase := Finished, response := Some(raw))];
    }
  }
}
