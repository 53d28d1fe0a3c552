/**
 * The SGW-C session store (internal/sgwc/session/manager.go): six indexes over one set of
 * sessions, and the S11 TEIDs those sessions use. Sessions are told apart by their
 * identifier, which stands for the reference the indexes hold.
 */
module SessionManager {
  import opened Wrappers
  import opened Bytes

  type ID = string

  /** A GTP-C peer address. */
  datatype Addr = NoAddr | At(host: string, port: string)

  const GTPC_PORT: string := "2123"

  function Canonical(a: Addr): Addr {
    if a == NoAddr || a.host == "" then NoAddr else At(a.host, GTPC_PORT)
  }

  /** Endpoints of one host are the same; the port given is not looked at, and an endpoint without a host is none. */
  lemma SameEndpointIff(a: Addr, b: Addr)
    requires a.At? && b.At?
    ensures Canonical(a) == Canonical(b) <==> a.host == b.host
    ensures Canonical(a) == NoAddr <==> a.host == ""
    ensures a.host != "" ==> Canonical(a) == At(a.host, "2123")
  {
  }

  datatype Session = Session(
    imsi: string, defaultEBI: byte, ebis: set<byte>, s11: u32, s5c: u32,
    pgwAddr: Addr, pgwControl: Addr, createdAt: int)

  datatype PDN = PDN(imsi: string, ebi: byte)

  datatype State = State(
    byID: map<ID, Session>,
    byS11: map<u32, seq<ID>>,
    byS5C: map<u32, ID>,
    byPGW: map<Addr, set<ID>>,
    byIMSI: map<string, ID>,
    byPDN: map<PDN, ID>,
    used: set<u32>)

  const EMPTY: State := State(map[], map[], map[], map[], map[], map[], {})

  function PDNOf(s: Session): PDN {
    PDN(s.imsi, s.defaultEBI)
  }

  /** Where a session is looked for in the PGW index: its recorded address, else its control endpoint. */
  function HomePGW(s: Session): Addr {
    if s.pgwAddr != NoAddr then Canonical(s.pgwAddr) else Canonical(s.pgwControl)
  }

  // ---- Coherence --------------------------------------------------------------

  predicate NoDuplicates(list: seq<ID>) {
    forall i, j :: 0 <= i < j < |list| ==> list[i] != list[j]
  }

  /** Each S11 TEID lists exactly the live sessions that use it, once each. */
  ghost predicate S11Coherent(byID: map<ID, Session>, byS11: map<u32, seq<ID>>) {
    && (forall t :: t in byS11 ==> byS11[t] != [] && NoDuplicates(byS11[t]))
    && (forall t, id :: t in byS11 && id in byS11[t] ==> id in byID && byID[id].s11 == t)
    && (forall id :: id in byID ==> byID[id].s11 in byS11 && id in byS11[byID[id].s11])
  }

  /** PDN connections and live sessions correspond one to one. */
  ghost predicate PDNCoherent(byID: map<ID, Session>, byPDN: map<PDN, ID>) {
    && (forall p :: p in byPDN ==> byPDN[p] in byID && PDNOf(byID[byPDN[p]]) == p)
    && (forall id :: id in byID ==> PDNOf(byID[id]) in byPDN && byPDN[PDNOf(byID[id])] == id)
  }

  ghost predicate S5CCoherent(byID: map<ID, Session>, byS5C: map<u32, ID>) {
    && (forall t :: t in byS5C ==> t != 0 && byS5C[t] in byID && byID[byS5C[t]].s5c == t)
    && (forall id :: id in byID && byID[id].s5c != 0 ==> byID[id].s5c in byS5C && byS5C[byID[id].s5c] == id)
  }

  predicate Listed(byPGW: map<Addr, set<ID>>, a: Addr, id: ID) {
    a in byPGW && id in byPGW[a]
  }

  /** No entry is stale, and every session with a recorded PGW is found there. */
  ghost predicate PGWCoherent(byID: map<ID, Session>, byPGW: map<Addr, set<ID>>) {
    && (forall a :: a in byPGW ==> a != NoAddr && byPGW[a] != {})
    && (forall a, id :: Listed(byPGW, a, id) ==> id in byID && HomePGW(byID[id]) == a)
    && (forall id :: id in byID && byID[id].pgwAddr != NoAddr ==>
          byID[id].pgwAddr == Canonical(byID[id].pgwAddr) && Listed(byPGW, byID[id].pgwAddr, id))
  }

  /** Each subscriber's entry is one of its live sessions, and subscribers with sessions have one. */
  ghost predicate IMSICoherent(byID: map<ID, Session>, byIMSI: map<string, ID>) {
    && (forall i :: i in byIMSI ==> byIMSI[i] in byID && byID[byIMSI[i]].imsi == i)
    && (forall id :: id in byID ==> byID[id].imsi in byIMSI)
  }

  ghost predicate IMSINewest(byID: map<ID, Session>, byIMSI: map<string, ID>) {
    forall i, id :: i in byIMSI && id in byID && byID[id].imsi == i && byIMSI[i] in byID ==>
      byID[id].createdAt <= byID[byIMSI[i]].createdAt
  }

  /** An S11 TEID is allocated exactly when some live session uses it. */
  ghost predicate TEIDCoherent(byS11: map<u32, seq<ID>>, used: set<u32>) {
    0 !in used && forall t :: t in used <==> t in byS11
  }

  ghost predicate IndexesCoherent(m: State) {
    && S11Coherent(m.byID, m.byS11)
    && PDNCoherent(m.byID, m.byPDN)
    && S5CCoherent(m.byID, m.byS5C)
    && PGWCoherent(m.byID, m.byPGW)
    && IMSICoherent(m.byID, m.byIMSI)
  }

  ghost predicate Coherent(m: State) {
    IndexesCoherent(m) && TEIDCoherent(m.byS11, m.used)
  }

  ghost predicate FullyCoherent(m: State) {
    Coherent(m) && IMSINewest(m.byID, m.byIMSI)
  }

  // ---- Removal ----------------------------------------------------------------

  function Without(list: seq<ID>, id: ID): seq<ID> {
    if list == [] then []
    else Without(list[..|list| - 1], id) + if list[|list| - 1] == id then [] else [list[|list| - 1]]
  }

  lemma {:induction false} WithoutKeepsOthers(list: seq<ID>, id: ID)
    ensures forall x :: x in Without(list, id) <==> x in list && x != id
    ensures NoDuplicates(list) ==> NoDuplicates(Without(list, id))
  {
    if list != [] {
      var before, last := list[..|list| - 1], list[|list| - 1];
      WithoutKeepsOthers(before, id);
      assert list == before + [last];
      if NoDuplicates(list) {
        assert last !in before;
      }
    }
  }

  function DropS11(byS11: map<u32, seq<ID>>, t: u32, id: ID): map<u32, seq<ID>> {
    if t !in byS11 then byS11
    else if Without(byS11[t], id) == [] then byS11 - {t}
    else byS11[t := Without(byS11[t], id)]
  }

  function DropPGW(byPGW: map<Addr, set<ID>>, addr: Addr, id: ID): map<Addr, set<ID>> {
    var a := Canonical(addr);
    if a == NoAddr || a !in byPGW then byPGW
    else if byPGW[a] - {id} == {} then byPGW - {a}
    else byPGW[a := byPGW[a] - {id}]
  }

  /** A subscriber's newest remaining session; ties are broken by map iteration order. */
  ghost predicate IsNewest(byID: map<ID, Session>, imsi: string, newest: Option<ID>) {
    match newest
    case None => forall id :: id in byID ==> byID[id].imsi != imsi
    case Some(n) =>
      && n in byID && byID[n].imsi == imsi
      && forall id :: id in byID && byID[id].imsi == imsi ==> byID[id].createdAt <= byID[n].createdAt
  }

  function DropIMSI(byIMSI: map<string, ID>, imsi: string, id: ID, newest: Option<ID>): map<string, ID> {
    if imsi !in byIMSI || byIMSI[imsi] != id then byIMSI
    else match newest case None => byIMSI - {imsi} case Some(n) => byIMSI[imsi := n]
  }

  function Removed(m: State, id: ID, newest: Option<ID>): State
    requires id in m.byID
  {
    var s := m.byID[id];
    m.(byID := m.byID - {id},
       byS11 := DropS11(m.byS11, s.s11, id),
       byS5C := if s.s5c != 0 then m.byS5C - {s.s5c} else m.byS5C,
       byPGW := DropPGW(m.byPGW, HomePGW(s), id),
       byPDN := if PDNOf(s) in m.byPDN && m.byPDN[PDNOf(s)] == id then m.byPDN - {PDNOf(s)} else m.byPDN,
       byIMSI := DropIMSI(m.byIMSI, s.imsi, id, newest))
  }

  /** A TEID goes back to the pool once no session lists it. */
  function FreeUnlisted(m: State, t: u32): State {
    if t in m.byS11 then m else m.(used := m.used - {t})
  }

  // ---- Operations -------------------------------------------------------------

  datatype CreateParams = CreateParams(imsi: string, ebi: byte, reuseS11: u32)

  function NewSession(p: CreateParams, t: u32, now: int): Session {
    Session(p.imsi, p.ebi, {p.ebi}, t, 0, NoAddr, NoAddr, now)
  }

  function Insert(m: State, id: ID, s: Session): State {
    m.(byID := m.byID[id := s],
       byS11 := m.byS11[s.s11 := (if s.s11 in m.byS11 then m.byS11[s.s11] else []) + [id]],
       byPDN := m.byPDN[PDNOf(s) := id],
       byIMSI := m.byIMSI[s.imsi := id])
  }

  /** Removes the session a new one collides with, and frees its TEID unless the new one shares it. */
  function Evict(m: State, pdn: PDN, t: u32, newest: Option<ID>): State {
    if pdn !in m.byPDN || m.byPDN[pdn] !in m.byID then m
    else
      var gone := m.byPDN[pdn];
      var r := Removed(m, gone, newest);
      if m.byID[gone].s11 == t then r else FreeUnlisted(r, m.byID[gone].s11)
  }

  function Create(m: State, p: CreateParams, id: ID, pick: u32, now: int, newest: Option<ID>): State {
    var t := if p.reuseS11 == 0 then pick else p.reuseS11;
    var reserved := if p.reuseS11 == 0 then m.(used := m.used + {pick}) else m;
    Insert(Evict(reserved, PDN(p.imsi, p.ebi), t, newest), id, NewSession(p, t, now))
  }

  function Delete(m: State, id: ID, newest: Option<ID>): State {
    if id !in m.byID then m else FreeUnlisted(Removed(m, id, newest), m.byID[id].s11)
  }

  /** The handler stores the local S5/S8-C TEID in the session, then has the store index it. */
  function StoreS5C(m: State, id: ID, t: u32): State {
    if id !in m.byID then m else m.(byID := m.byID[id := m.byID[id].(s5c := t)])
  }

  function IndexS5C(m: State, id: ID, t: u32): State {
    if id !in m.byID then m else m.(byS5C := m.byS5C[t := id])
  }

  function RegisterS5C(m: State, id: ID, t: u32): State {
    IndexS5C(StoreS5C(m, id, t), id, t)
  }

  function RegisterPGW(m: State, id: ID, addr: Addr): State {
    var a := Canonical(addr);
    if a == NoAddr || id !in m.byID then m
    else
      var s := m.byID[id];
      var left := if s.pgwAddr != NoAddr && s.pgwAddr != a then DropPGW(m.byPGW, s.pgwAddr, id) else m.byPGW;
      m.(byPGW := left[a := (if a in left then left[a] else {}) + {id}], byID := m.byID[id := s.(pgwAddr := a)])
  }

  function SetPGWControl(m: State, id: ID, control: Addr): State {
    if id !in m.byID then m else m.(byID := m.byID[id := m.byID[id].(pgwControl := control)])
  }

  /**
   * A path or restart notice collects the sessions indexed under an endpoint, then records the
   * endpoint in each of them later, one at a time: this is one such recording.
   */
  function NotePGW(m: State, id: ID, addr: Addr): State {
    var a := Canonical(addr);
    if a == NoAddr || id !in m.byID then m else m.(byID := m.byID[id := m.byID[id].(pgwAddr := a)])
  }

  function SetBearers(m: State, id: ID, ebis: set<byte>): State {
    if id !in m.byID then m else m.(byID := m.byID[id := m.byID[id].(ebis := ebis)])
  }

  /** Who owns a bearer changes for the one session, and the lists that are scanned for owners do not. */
  lemma BearersDecideOwner(m: State, id: ID, ebis: set<byte>, x: ID, e: byte)
    ensures var n := SetBearers(m, id, ebis);
            && n == m.(byID := n.byID) && n.byID.Keys == m.byID.Keys
            && (HasBearer(n.byID, e)(x) <==> x in m.byID && if x == id then e in ebis else e in m.byID[x].ebis)
            && (DefaultIs(n.byID, e)(x) <==> x in m.byID && m.byID[x].defaultEBI == e)
  {
  }

  // ---- Each operation keeps the indexes coherent ------------------------------

  lemma DropS11Coherent(m: State, id: ID)
    requires id in m.byID && S11Coherent(m.byID, m.byS11)
    ensures S11Coherent(m.byID - {id}, DropS11(m.byS11, m.byID[id].s11, id))
  {
    var t := m.byID[id].s11;
    WithoutKeepsOthers(m.byS11[t], id);
    hide Without;
    var after := DropS11(m.byS11, t, id);
    forall x | x in m.byID - {id} ensures m.byID[x].s11 in after && x in after[m.byID[x].s11] {
      if m.byID[x].s11 == t {
        assert x in Without(m.byS11[t], id);
      }
    }
  }

  lemma DropPGWLists(byPGW: map<Addr, set<ID>>, addr: Addr, id: ID)
    ensures forall a, x :: Listed(DropPGW(byPGW, addr, id), a, x) <==>
                           Listed(byPGW, a, x) && !(Canonical(addr) != NoAddr && a == Canonical(addr) && x == id)
  {
    var c := Canonical(addr);
    assert c in byPGW ==> forall x :: x in byPGW[c] - {id} <==> Listed(byPGW, c, x) && x != id;
  }

  lemma DropPGWCoherent(m: State, id: ID)
    requires id in m.byID && PGWCoherent(m.byID, m.byPGW)
    ensures PGWCoherent(m.byID - {id}, DropPGW(m.byPGW, HomePGW(m.byID[id]), id))
  {
    DropPGWLists(m.byPGW, HomePGW(m.byID[id]), id);
  }

  lemma DropIMSICoherent(m: State, id: ID, newest: Option<ID>)
    requires id in m.byID && IMSICoherent(m.byID, m.byIMSI) && IsNewest(m.byID - {id}, m.byID[id].imsi, newest)
    ensures IMSICoherent(m.byID - {id}, DropIMSI(m.byIMSI, m.byID[id].imsi, id, newest))
    ensures IMSINewest(m.byID, m.byIMSI) ==>
            IMSINewest(m.byID - {id}, DropIMSI(m.byIMSI, m.byID[id].imsi, id, newest))
  {
  }

  /** Removal leaves every index coherent; only the pool may still hold the removed session's TEID. */
  lemma RemovedCoherent(m: State, id: ID, newest: Option<ID>)
    requires IndexesCoherent(m) && id in m.byID && IsNewest(m.byID - {id}, m.byID[id].imsi, newest)
    ensures IndexesCoherent(Removed(m, id, newest))
    ensures IMSINewest(m.byID, m.byIMSI) ==> IMSINewest(Removed(m, id, newest).byID, Removed(m, id, newest).byIMSI)
    ensures PDNOf(m.byID[id]) !in Removed(m, id, newest).byPDN
  {
    hide S11Coherent, PGWCoherent, IMSICoherent, IMSINewest, DropS11, DropPGW, DropIMSI, IsNewest;
    DropS11Coherent(m, id);
    DropPGWCoherent(m, id);
    DropIMSICoherent(m, id, newest);
  }

  /** The pool matches the listed TEIDs, except perhaps for one TEID about to be listed. */
  ghost predicate PoolHolds(byS11: map<u32, seq<ID>>, used: set<u32>, t: u32) {
    0 !in used && t in used && forall x :: x in used <==> x in byS11 || x == t
  }

  lemma FreeUnlistedPool(m: State, id: ID, newest: Option<ID>)
    requires id in m.byID && m.byID[id].s11 in m.byS11
    ensures var r := FreeUnlisted(Removed(m, id, newest), m.byID[id].s11);
            && (TEIDCoherent(m.byS11, m.used) ==> TEIDCoherent(r.byS11, r.used))
            && (forall t :: t != m.byID[id].s11 && PoolHolds(m.byS11, m.used, t) ==> PoolHolds(r.byS11, r.used, t))
  {
    hide Without;
  }

  lemma S11Listed(m: State, id: ID)
    requires S11Coherent(m.byID, m.byS11) && id in m.byID
    ensures m.byID[id].s11 in m.byS11 && id in m.byS11[m.byID[id].s11]
  {
  }

  lemma DeleteKeepsCoherent(m: State, id: ID, newest: Option<ID>)
    requires Coherent(m) && (id in m.byID ==> IsNewest(m.byID - {id}, m.byID[id].imsi, newest))
    ensures Coherent(Delete(m, id, newest))
    ensures FullyCoherent(m) ==> FullyCoherent(Delete(m, id, newest))
  {
    hide S11Coherent, PGWCoherent, IMSICoherent, IMSINewest, PDNCoherent, S5CCoherent, IsNewest, TEIDCoherent, Removed;
    if id in m.byID {
      RemovedCoherent(m, id, newest);
      S11Listed(m, id);
      FreeUnlistedPool(m, id, newest);
    }
  }

  /** Deletion takes the one session out, leaves a subscriber's entry on any other, and gives its TEID back exactly when no other session shares it. */
  lemma DeletedSession(m: State, id: ID, newest: Option<ID>)
    requires Coherent(m) && id in m.byID && IsNewest(m.byID - {id}, m.byID[id].imsi, newest)
    ensures var n, t := Delete(m, id, newest), m.byID[id].s11;
            && n.byID == m.byID - {id} && PDNOf(m.byID[id]) !in n.byPDN
            && (t in n.used <==> exists x :: x in m.byID && x != id && m.byID[x].s11 == t)
            && (forall u :: u != t ==> (u in n.used <==> u in m.used))
            && (forall i :: i in m.byIMSI && m.byIMSI[i] != id ==> i in n.byIMSI && n.byIMSI[i] == m.byIMSI[i])
  {
    hide S11Coherent, PGWCoherent, IMSICoherent, PDNCoherent, S5CCoherent, IsNewest, DropPGW, DropIMSI, DropS11, Removed;
    DeleteKeepsCoherent(m, id, newest);
    RemovedCoherent(m, id, newest);
    RemovedFields(m, id, newest);
    var n, t := Delete(m, id, newest), m.byID[id].s11;
    UsedIffListed(n, t);
    assert forall x :: x in n.byID <==> x in m.byID && x != id;
    assert forall x :: x in n.byID ==> n.byID[x] == m.byID[x];
  }

  lemma RemovedFields(m: State, id: ID, newest: Option<ID>)
    requires id in m.byID
    ensures Removed(m, id, newest).byID == m.byID - {id} && Removed(m, id, newest).used == m.used
    ensures var n := Removed(m, id, newest);
            forall i :: i in m.byIMSI && m.byIMSI[i] != id ==> i in n.byIMSI && n.byIMSI[i] == m.byIMSI[i]
  {
    hide DropS11, DropPGW;
  }

  /** After the eviction the new session's PDN is free and the pool still holds the new TEID. */
  lemma EvictCoherent(m: State, pdn: PDN, t: u32, newest: Option<ID>)
    requires IndexesCoherent(m) && PoolHolds(m.byS11, m.used, t)
    requires pdn in m.byPDN ==> m.byPDN[pdn] in m.byID && IsNewest(m.byID - {m.byPDN[pdn]}, pdn.imsi, newest)
    ensures var r := Evict(m, pdn, t, newest);
            && IndexesCoherent(r) && PoolHolds(r.byS11, r.used, t) && pdn !in r.byPDN
            && r.byID == (if pdn in m.byPDN then m.byID - {m.byPDN[pdn]} else m.byID)
            && (IMSINewest(m.byID, m.byIMSI) ==> IMSINewest(r.byID, r.byIMSI))
  {
    hide S11Coherent, PGWCoherent, IMSICoherent, IMSINewest, S5CCoherent, IsNewest, PoolHolds, DropPGW, DropIMSI, Without;
    if pdn in m.byPDN {
      var gone := m.byPDN[pdn];
      assert PDNOf(m.byID[gone]) == pdn;
      RemovedCoherent(m, gone, newest);
      S11Listed(m, gone);
      FreeUnlistedPool(m, gone, newest);
      if m.byID[gone].s11 == t {
        SharedPool(m, gone, newest);
      }
    }
  }

  /** Removing a session that shares the new TEID needs no freeing. */
  lemma SharedPool(m: State, id: ID, newest: Option<ID>)
    requires id in m.byID && PoolHolds(m.byS11, m.used, m.byID[id].s11)
    ensures PoolHolds(Removed(m, id, newest).byS11, m.used, m.byID[id].s11)
  {
    hide Without;
  }

  /** Adding a session with a new identifier and a free PDN, under a TEID the pool holds. */
  lemma InsertCoherent(m: State, id: ID, s: Session)
    requires IndexesCoherent(m) && PoolHolds(m.byS11, m.used, s.s11)
    requires id !in m.byID && PDNOf(s) !in m.byPDN && s.s5c == 0 && s.pgwAddr == NoAddr
    ensures Coherent(Insert(m, id, s))
  {
    hide PGWCoherent, S5CCoherent, S11Coherent, IMSICoherent, PDNCoherent, PoolHolds, TEIDCoherent;
    InsertS11(m, id, s);
    InsertPDN(m, id, s);
    InsertIMSI(m, id, s);
    InsertUnregistered(m, id, s);
  }

  lemma InsertS11(m: State, id: ID, s: Session)
    requires S11Coherent(m.byID, m.byS11) && PoolHolds(m.byS11, m.used, s.s11) && id !in m.byID
    ensures S11Coherent(Insert(m, id, s).byID, Insert(m, id, s).byS11)
    ensures TEIDCoherent(Insert(m, id, s).byS11, m.used)
  {
    hide S11Coherent;
    AppendS11(m.byID, m.byS11, id, s);
  }

  lemma AppendS11(byID: map<ID, Session>, byS11: map<u32, seq<ID>>, id: ID, s: Session)
    requires S11Coherent(byID, byS11) && id !in byID
    ensures S11Coherent(byID[id := s], byS11[s.s11 := (if s.s11 in byS11 then byS11[s.s11] else []) + [id]])
  {
    var before := if s.s11 in byS11 then byS11[s.s11] else [];
    assert id !in before;
    assert (before + [id])[|before|] == id;
  }

  lemma InsertPDN(m: State, id: ID, s: Session)
    requires id !in m.byID && PDNOf(s) !in m.byPDN && PDNCoherent(m.byID, m.byPDN)
    ensures PDNCoherent(Insert(m, id, s).byID, Insert(m, id, s).byPDN)
  {
  }

  lemma InsertIMSI(m: State, id: ID, s: Session)
    requires id !in m.byID && IMSICoherent(m.byID, m.byIMSI)
    ensures IMSICoherent(Insert(m, id, s).byID, Insert(m, id, s).byIMSI)
  {
  }

  /** A session not yet known to its PGW and without a local S5/S8-C TEID is in neither of those indexes. */
  lemma InsertUnregistered(m: State, id: ID, s: Session)
    requires id !in m.byID && s.s5c == 0 && s.pgwAddr == NoAddr
    ensures S5CCoherent(m.byID, m.byS5C) ==> S5CCoherent(m.byID[id := s], m.byS5C)
    ensures PGWCoherent(m.byID, m.byPGW) ==> PGWCoherent(m.byID[id := s], m.byPGW)
  {
  }

  /** A reused TEID must still be in use; an allocated one comes fresh from the pool. */
  ghost predicate TEIDAvailable(m: State, p: CreateParams, pick: u32) {
    if p.reuseS11 == 0 then pick != 0 && pick !in m.used else p.reuseS11 in m.byS11
  }

  /** The choice of a newest session to fall back to, if the new session evicts one. */
  ghost predicate FallbackChosen(m: State, p: CreateParams, newest: Option<ID>) {
    var pdn := PDN(p.imsi, p.ebi);
    pdn in m.byPDN ==> m.byPDN[pdn] in m.byID && IsNewest(m.byID - {m.byPDN[pdn]}, p.imsi, newest)
  }

  lemma ReservedPool(m: State, p: CreateParams, pick: u32)
    requires TEIDCoherent(m.byS11, m.used) && TEIDAvailable(m, p, pick)
    ensures if p.reuseS11 == 0 then PoolHolds(m.byS11, m.used + {pick}, pick) else PoolHolds(m.byS11, m.used, p.reuseS11)
  {
  }

  /** Session creation, with eviction and with TEID reuse, keeps every index and the pool coherent. */
  lemma CreateKeepsCoherent(m: State, p: CreateParams, id: ID, pick: u32, now: int, newest: Option<ID>)
    requires Coherent(m) && id !in m.byID && TEIDAvailable(m, p, pick) && FallbackChosen(m, p, newest)
    ensures Coherent(Create(m, p, id, pick, now, newest))
  {
    hide S11Coherent, PDNCoherent, S5CCoherent, PGWCoherent, IMSICoherent, PoolHolds, TEIDCoherent, Evict, Insert;
    var t := if p.reuseS11 == 0 then pick else p.reuseS11;
    var reserved := if p.reuseS11 == 0 then m.(used := m.used + {pick}) else m;
    ReservedPool(m, p, pick);
    EvictCoherent(reserved, PDN(p.imsi, p.ebi), t, newest);
    InsertCoherent(Evict(reserved, PDN(p.imsi, p.ebi), t, newest), id, NewSession(p, t, now));
  }

  /**
   * The subscriber's entry stays a newest session exactly when the creation time, read
   * before the lock is taken, is not earlier than that of a remaining session.
   */
  lemma CreateKeepsNewestIff(m: State, p: CreateParams, id: ID, pick: u32, now: int, newest: Option<ID>)
    requires FullyCoherent(m) && id !in m.byID && TEIDAvailable(m, p, pick) && FallbackChosen(m, p, newest)
    ensures FullyCoherent(Create(m, p, id, pick, now, newest)) <==>
            forall x :: x in m.byID && m.byID[x].imsi == p.imsi && PDNOf(m.byID[x]) != PDN(p.imsi, p.ebi) ==>
              m.byID[x].createdAt <= now
  {
    hide S11Coherent, S5CCoherent, PGWCoherent, IMSICoherent, PDNCoherent, PoolHolds, TEIDCoherent, Evict, Insert, IMSINewest;
    CreateKeepsCoherent(m, p, id, pick, now, newest);
    var t := if p.reuseS11 == 0 then pick else p.reuseS11;
    var reserved := if p.reuseS11 == 0 then m.(used := m.used + {pick}) else m;
    ReservedPool(m, p, pick);
    EvictCoherent(reserved, PDN(p.imsi, p.ebi), t, newest);
    var e := Evict(reserved, PDN(p.imsi, p.ebi), t, newest);
    InsertNewestIff(e, id, NewSession(p, t, now));
    EvictedByPDN(m, PDN(p.imsi, p.ebi), e.byID);
  }

  /** The sessions left after an eviction are those of other PDN connections. */
  lemma EvictedByPDN(m: State, pdn: PDN, left: map<ID, Session>)
    requires PDNCoherent(m.byID, m.byPDN)
    requires left == if pdn in m.byPDN then m.byID - {m.byPDN[pdn]} else m.byID
    ensures forall x :: x in left <==> x in m.byID && PDNOf(m.byID[x]) != pdn
    ensures forall x :: x in left ==> left[x] == m.byID[x]
  {
  }

  lemma InsertNewestIff(m: State, id: ID, s: Session)
    requires id !in m.byID && IMSICoherent(m.byID, m.byIMSI) && IMSINewest(m.byID, m.byIMSI)
    ensures IMSINewest(Insert(m, id, s).byID, Insert(m, id, s).byIMSI) <==>
            forall x :: x in m.byID && m.byID[x].imsi == s.imsi ==> m.byID[x].createdAt <= s.createdAt
  {
    var n := Insert(m, id, s);
    forall x | x in m.byID && m.byID[x].imsi == s.imsi
      ensures x in n.byID && n.byID[x] == m.byID[x] && n.byIMSI[s.imsi] == id && n.byID[id] == s
    {
    }
  }

  /**
   * Exactly when creation under a given S11 TEID keeps the pool right: some live session
   * must still be using that TEID. A TEID freed in between is used but not allocated.
   */
  lemma ReuseKeepsCoherentIff(m: State, p: CreateParams, id: ID, now: int, newest: Option<ID>)
    requires Coherent(m) && id !in m.byID && p.reuseS11 != 0 && FallbackChosen(m, p, newest)
    ensures Coherent(Create(m, p, id, 0, now, newest)) <==> exists x :: x in m.byID && m.byID[x].s11 == p.reuseS11
  {
    hide PDNCoherent, PGWCoherent, IMSICoherent, S5CCoherent, S11Coherent, Create;
    UsedIffListed(m, p.reuseS11);
    if p.reuseS11 in m.byS11 {
      CreateKeepsCoherent(m, p, id, 0, now, newest);
    } else {
      ReuseUnallocated(m, p, id, now, newest);
    }
  }

  lemma UsedIffListed(m: State, t: u32)
    requires S11Coherent(m.byID, m.byS11)
    ensures t in m.byS11 <==> exists x :: x in m.byID && m.byID[x].s11 == t
  {
    if t in m.byS11 {
      var x := m.byS11[t][0];
      assert x in m.byS11[t];
      assert m.byID[x].s11 == t;
    }
  }

  lemma ReuseUnallocated(m: State, p: CreateParams, id: ID, now: int, newest: Option<ID>)
    requires p.reuseS11 != 0 && p.reuseS11 !in m.used && FallbackChosen(m, p, newest)
    ensures p.reuseS11 in Create(m, p, id, 0, now, newest).byS11 && p.reuseS11 !in Create(m, p, id, 0, now, newest).used
  {
    hide IsNewest, DropPGW, DropIMSI, DropS11;
  }

  /** Exactly when registering a fresh S5/S8-C TEID keeps that index right: the session must not have one already. */
  lemma RegisterS5CKeepsCoherentIff(m: State, id: ID, t: u32)
    requires Coherent(m) && id in m.byID && t != 0 && t !in m.byS5C
    ensures Coherent(RegisterS5C(m, id, t)) <==> m.byID[id].s5c == 0
  {
    hide PDNCoherent, S11Coherent, PGWCoherent, IMSICoherent, TEIDCoherent, S5CCoherent, IMSINewest;
    FieldsOnly(m, id, m.byID[id].(s5c := t));
    S5CRegistrationIff(m, id, t);
  }

  lemma S5CRegistrationIff(m: State, id: ID, t: u32)
    requires S5CCoherent(m.byID, m.byS5C) && id in m.byID && t != 0 && t !in m.byS5C
    ensures S5CCoherent(m.byID[id := m.byID[id].(s5c := t)], m.byS5C[t := id]) <==> m.byID[id].s5c == 0
  {
    var s := m.byID[id];
    if s.s5c != 0 {
      assert s.s5c in m.byS5C[t := id] && m.byS5C[t := id][s.s5c] == id;
    }
  }

  /** A session removed between the two steps leaves the indexes as if it had never stored the TEID. */
  lemma RemovedBeforeIndexing(m: State, id: ID, t: u32, newest: Option<ID>)
    requires Coherent(m) && id in m.byID && m.byID[id].s5c == 0 && t != 0 && t !in m.byS5C
    requires IsNewest(m.byID - {id}, m.byID[id].imsi, newest)
    ensures IndexS5C(Delete(StoreS5C(m, id, t), id, newest), id, t) == Delete(m, id, newest)
    ensures Coherent(Delete(m, id, newest))
  {
    hide Coherent, Removed, IsNewest;
    DeleteKeepsCoherent(m, id, newest);
    RemovedAlike(m, id, t, newest);
  }

  lemma RemovedAlike(m: State, id: ID, t: u32, newest: Option<ID>)
    requires id in m.byID && m.byID[id].s5c == 0 && t != 0 && t !in m.byS5C
    ensures Removed(StoreS5C(m, id, t), id, newest) == Removed(m, id, newest)
    ensures id !in Removed(m, id, newest).byID && StoreS5C(m, id, t).byID[id].s11 == m.byID[id].s11
  {
    hide DropS11, DropPGW, DropIMSI;
    assert m.byID[id := m.byID[id].(s5c := t)] - {id} == m.byID - {id};
    assert m.byS5C - {t} == m.byS5C;
  }

  /** A change of fields that no index but perhaps S5/S8-C or PGW depends on. */
  lemma FieldsOnly(m: State, id: ID, s: Session)
    requires id in m.byID && s.imsi == m.byID[id].imsi && s.defaultEBI == m.byID[id].defaultEBI
    requires s.s11 == m.byID[id].s11 && s.createdAt == m.byID[id].createdAt
    ensures S11Coherent(m.byID, m.byS11) ==> S11Coherent(m.byID[id := s], m.byS11)
    ensures PDNCoherent(m.byID, m.byPDN) ==> PDNCoherent(m.byID[id := s], m.byPDN)
    ensures IMSICoherent(m.byID, m.byIMSI) ==> IMSICoherent(m.byID[id := s], m.byIMSI)
    ensures IMSINewest(m.byID, m.byIMSI) ==> IMSINewest(m.byID[id := s], m.byIMSI)
    ensures S5CCoherent(m.byID, m.byS5C) && s.s5c == m.byID[id].s5c ==> S5CCoherent(m.byID[id := s], m.byS5C)
    ensures PGWCoherent(m.byID, m.byPGW) && s.pgwAddr == m.byID[id].pgwAddr && s.pgwControl == m.byID[id].pgwControl ==>
              PGWCoherent(m.byID[id := s], m.byPGW)
  {
    hide S11Coherent, PDNCoherent, IMSICoherent, IMSINewest, S5CCoherent, PGWCoherent;
    FieldsKeepLists(m, id, s);
    FieldsKeepIMSI(m, id, s);
    FieldsKeepPeers(m, id, s);
  }

  lemma FieldsKeepLists(m: State, id: ID, s: Session)
    requires id in m.byID && s.imsi == m.byID[id].imsi && s.defaultEBI == m.byID[id].defaultEBI
    requires s.s11 == m.byID[id].s11 && s.createdAt == m.byID[id].createdAt
    ensures S11Coherent(m.byID, m.byS11) ==> S11Coherent(m.byID[id := s], m.byS11)
    ensures PDNCoherent(m.byID, m.byPDN) ==> PDNCoherent(m.byID[id := s], m.byPDN)
  {
  }

  lemma FieldsKeepIMSI(m: State, id: ID, s: Session)
    requires id in m.byID && s.imsi == m.byID[id].imsi && s.defaultEBI == m.byID[id].defaultEBI
    requires s.s11 == m.byID[id].s11 && s.createdAt == m.byID[id].createdAt
    ensures IMSICoherent(m.byID, m.byIMSI) ==> IMSICoherent(m.byID[id := s], m.byIMSI)
    ensures IMSINewest(m.byID, m.byIMSI) ==> IMSINewest(m.byID[id := s], m.byIMSI)
  {
  }

  lemma FieldsKeepPeers(m: State, id: ID, s: Session)
    requires id in m.byID
    ensures S5CCoherent(m.byID, m.byS5C) && s.s5c == m.byID[id].s5c ==> S5CCoherent(m.byID[id := s], m.byS5C)
    ensures PGWCoherent(m.byID, m.byPGW) && s.pgwAddr == m.byID[id].pgwAddr && s.pgwControl == m.byID[id].pgwControl ==>
              PGWCoherent(m.byID[id := s], m.byPGW)
  {
  }

  /** A session indexed by its control endpoint only, as after a restore, with no PGW address recorded. */
  predicate IndexedByControl(m: State, id: ID) {
    id in m.byID && m.byID[id].pgwAddr == NoAddr && Listed(m.byPGW, HomePGW(m.byID[id]), id)
  }

  lemma PGWOnly(m: State, id: ID, s: Session, byPGW: map<Addr, set<ID>>)
    requires id in m.byID && s == m.byID[id].(pgwAddr := s.pgwAddr, pgwControl := s.pgwControl)
    ensures Coherent(m) ==> (Coherent(m.(byID := m.byID[id := s], byPGW := byPGW)) <==> PGWCoherent(m.byID[id := s], byPGW))
    ensures IMSINewest(m.byID, m.byIMSI) ==> IMSINewest(m.byID[id := s], m.byIMSI)
  {
    hide S11Coherent, PDNCoherent, IMSICoherent, S5CCoherent, PGWCoherent, IMSINewest;
    FieldsOnly(m, id, s);
  }

  /**
   * Exactly when registering a PGW keeps that index right: it goes wrong only for a session
   * indexed by its control endpoint alone and now registered elsewhere, whose old entry stays.
   */
  lemma RegisterPGWKeepsCoherentIff(m: State, id: ID, addr: Addr)
    requires Coherent(m)
    ensures Coherent(RegisterPGW(m, id, addr)) <==>
            !(Canonical(addr) != NoAddr && IndexedByControl(m, id) && HomePGW(m.byID[id]) != Canonical(addr))
    ensures IMSINewest(m.byID, m.byIMSI) ==> IMSINewest(RegisterPGW(m, id, addr).byID, m.byIMSI)
  {
    var a := Canonical(addr);
    if a != NoAddr && id in m.byID {
      var s := m.byID[id];
      hide Coherent, PGWCoherent, IMSINewest, DropPGW;
      PGWOnly(m, id, s.(pgwAddr := a), RegisterPGW(m, id, addr).byPGW);
      CoherentPGW(m);
      if s.pgwAddr == NoAddr {
        FirstRegistration(m, id, addr);
      } else {
        Reregistration(m, id, addr);
      }
    }
  }

  lemma CoherentPGW(m: State)
    requires Coherent(m)
    ensures PGWCoherent(m.byID, m.byPGW)
  {
  }

  /** The PGW entry lists of a registration, by membership. */
  lemma RegisterPGWLists(m: State, id: ID, addr: Addr)
    requires id in m.byID && Canonical(addr) != NoAddr
    ensures var n, s, a := RegisterPGW(m, id, addr), m.byID[id], Canonical(addr);
            && (forall b, x :: Listed(n.byPGW, b, x) <==>
                 (b == a && x == id) ||
                 (Listed(m.byPGW, b, x) &&
                  !(s.pgwAddr != NoAddr && s.pgwAddr != a && Canonical(s.pgwAddr) != NoAddr && b == Canonical(s.pgwAddr) && x == id)))
            && (PGWCoherent(m.byID, m.byPGW) ==> forall b :: b in n.byPGW ==> b != NoAddr && n.byPGW[b] != {})
  {
    DropPGWLists(m.byPGW, m.byID[id].pgwAddr, id);
  }

  lemma FirstRegistration(m: State, id: ID, addr: Addr)
    requires PGWCoherent(m.byID, m.byPGW) && id in m.byID && Canonical(addr) != NoAddr
    requires m.byID[id].pgwAddr == NoAddr
    ensures PGWCoherent(RegisterPGW(m, id, addr).byID, RegisterPGW(m, id, addr).byPGW) <==>
            !(IndexedByControl(m, id) && HomePGW(m.byID[id]) != Canonical(addr))
  {
    hide DropPGW, Listed;
    var n := RegisterPGW(m, id, addr);
    var home := HomePGW(m.byID[id]);
    RegisterPGWLists(m, id, addr);
    if IndexedByControl(m, id) && home != Canonical(addr) {
      assert Listed(n.byPGW, home, id) && HomePGW(n.byID[id]) != home;
    }
  }

  lemma Reregistration(m: State, id: ID, addr: Addr)
    requires PGWCoherent(m.byID, m.byPGW) && id in m.byID && Canonical(addr) != NoAddr
    requires m.byID[id].pgwAddr != NoAddr
    ensures PGWCoherent(RegisterPGW(m, id, addr).byID, RegisterPGW(m, id, addr).byPGW)
  {
    hide DropPGW, Listed;
    var n := RegisterPGW(m, id, addr);
    RegisterPGWLists(m, id, addr);
  }

  /** Likewise for a change of the control endpoint. */
  lemma SetPGWControlKeepsCoherentIff(m: State, id: ID, control: Addr)
    requires Coherent(m)
    ensures Coherent(SetPGWControl(m, id, control)) <==>
            !(IndexedByControl(m, id) && HomePGW(m.byID[id]) != Canonical(control))
    ensures IMSINewest(m.byID, m.byIMSI) ==> IMSINewest(SetPGWControl(m, id, control).byID, m.byIMSI)
  {
    hide Coherent, IMSINewest, PGWCoherent, IndexedByControl;
    if id in m.byID {
      PGWOnly(m, id, m.byID[id].(pgwControl := control), m.byPGW);
      CoherentPGW(m);
      ControlChange(m, id, control);
    } else {
      NotIndexed(m, id);
    }
  }

  lemma NotIndexed(m: State, id: ID)
    requires id !in m.byID
    ensures !IndexedByControl(m, id)
  {
  }

  lemma ControlChange(m: State, id: ID, control: Addr)
    requires PGWCoherent(m.byID, m.byPGW) && id in m.byID
    ensures PGWCoherent(m.byID[id := m.byID[id].(pgwControl := control)], m.byPGW) <==>
            !(IndexedByControl(m, id) && HomePGW(m.byID[id]) != Canonical(control))
  {
    hide Listed;
    var s := m.byID[id].(pgwControl := control);
    if IndexedByControl(m, id) && HomePGW(m.byID[id]) != Canonical(control) {
      assert Listed(m.byPGW, HomePGW(m.byID[id]), id) && HomePGW(s) != HomePGW(m.byID[id]);
    }
  }

  /**
   * Exactly when such a recording keeps the PGW index right: the session must still be indexed
   * under that endpoint when its turn comes.
   */
  lemma NotePGWKeepsCoherentIff(m: State, id: ID, addr: Addr)
    requires Coherent(m)
    ensures Coherent(NotePGW(m, id, addr)) <==>
            Canonical(addr) == NoAddr || id !in m.byID || Listed(m.byPGW, Canonical(addr), id)
    ensures IMSINewest(m.byID, m.byIMSI) ==> IMSINewest(NotePGW(m, id, addr).byID, m.byIMSI)
  {
    var a := Canonical(addr);
    if a != NoAddr && id in m.byID {
      hide Coherent, PGWCoherent, IMSINewest;
      PGWOnly(m, id, m.byID[id].(pgwAddr := a), m.byPGW);
      CoherentPGW(m);
      NotedIndex(m, id, addr);
    }
  }

  lemma NotedIndex(m: State, id: ID, addr: Addr)
    requires PGWCoherent(m.byID, m.byPGW) && id in m.byID && Canonical(addr) != NoAddr
    ensures PGWCoherent(m.byID[id := m.byID[id].(pgwAddr := Canonical(addr))], m.byPGW) <==>
            Listed(m.byPGW, Canonical(addr), id)
  {
    var a := Canonical(addr);
    var s := m.byID[id].(pgwAddr := a);
    var byID := m.byID[id := s];
    assert Canonical(a) == a && byID[id] == s;
    if Listed(m.byPGW, a, id) {
      assert HomePGW(m.byID[id]) == a;
      forall b, x | Listed(m.byPGW, b, x) ensures x in byID && HomePGW(byID[x]) == b {
      }
    }
  }

  /** A session that registers elsewhere between the collection and its recording ends up indexed where it does not say. */
  lemma MovedBeforeItsNotice(m: State, id: ID, from: Addr, to: Addr)
    requires Coherent(m) && id in m.byID && m.byID[id].pgwAddr != NoAddr
    requires Listed(m.byPGW, Canonical(from), id) && Canonical(to) !in {NoAddr, Canonical(from)}
    ensures Coherent(RegisterPGW(m, id, to)) && !Coherent(NotePGW(RegisterPGW(m, id, to), id, from))
  {
    hide Coherent, PGWCoherent;
    CoherentPGW(m);
    RegisterPGWKeepsCoherentIff(m, id, to);
    NotePGWKeepsCoherentIff(RegisterPGW(m, id, to), id, from);
    LeftBehindEndpoint(m, id, from, to);
  }

  lemma LeftBehindEndpoint(m: State, id: ID, from: Addr, to: Addr)
    requires PGWCoherent(m.byID, m.byPGW) && id in m.byID && m.byID[id].pgwAddr != NoAddr
    requires Listed(m.byPGW, Canonical(from), id) && Canonical(to) !in {NoAddr, Canonical(from)}
    ensures Canonical(from) != NoAddr && !Listed(RegisterPGW(m, id, to).byPGW, Canonical(from), id)
    ensures id in RegisterPGW(m, id, to).byID
  {
    RegisterPGWLists(m, id, to);
    hide DropPGW, RegisterPGW;
  }

  // ---- Runs -------------------------------------------------------------------

  datatype Event =
    | Created(p: CreateParams, id: ID, pick: u32, now: int, newest: Option<ID>)
    | Deleted(id: ID, newest: Option<ID>)
    | S5CRegistered(id: ID, t: u32)
    | PGWRegistered(id: ID, addr: Addr)
    | ControlSet(id: ID, control: Addr)
    | PGWNoted(id: ID, addr: Addr)
    | BearersSet(id: ID, ebis: set<byte>)

  /**
   * Identifiers and TEIDs are fresh, clocks are read in order, a session registers one S5/S8-C
   * TEID, and a session has not moved when a collected notice reaches it.
   */
  ghost predicate Allowed(m: State, e: Event) {
    match e
    case Created(p, id, pick, now, newest) =>
      && id !in m.byID && TEIDAvailable(m, p, pick) && FallbackChosen(m, p, newest)
      && forall x :: x in m.byID && m.byID[x].imsi == p.imsi ==> m.byID[x].createdAt <= now
    case Deleted(id, newest) => id in m.byID ==> IsNewest(m.byID - {id}, m.byID[id].imsi, newest)
    case S5CRegistered(id, t) => id in m.byID ==> m.byID[id].s5c == 0 && t != 0 && t !in m.byS5C
    case PGWNoted(id, addr) => Canonical(addr) == NoAddr || id !in m.byID || Listed(m.byPGW, Canonical(addr), id)
    case _ => true
  }

  function Step(m: State, e: Event): State {
    match e
    case Created(p, id, pick, now, newest) => Create(m, p, id, pick, now, newest)
    case Deleted(id, newest) => Delete(m, id, newest)
    case S5CRegistered(id, t) => RegisterS5C(m, id, t)
    case PGWRegistered(id, addr) => RegisterPGW(m, id, addr)
    case ControlSet(id, control) => SetPGWControl(m, id, control)
    case PGWNoted(id, addr) => NotePGW(m, id, addr)
    case BearersSet(id, ebis) => SetBearers(m, id, ebis)
  }

  /** Sessions in the PGW index have that address on record, as they do unless restored without one. */
  ghost predicate Recorded(m: State) {
    forall a, id :: Listed(m.byPGW, a, id) ==> id in m.byID && m.byID[id].pgwAddr == a
  }

  /** One step keeps full coherence, as long as it does not move a session that only its control endpoint indexes. */
  lemma StepKeepsCoherent(m: State, e: Event)
    requires FullyCoherent(m) && Allowed(m, e)
    requires e.PGWRegistered? || e.ControlSet? ==>
               !IndexedByControl(m, e.id) ||
               (e.PGWRegistered? && Canonical(e.addr) in {NoAddr, HomePGW(m.byID[e.id])}) ||
               (e.ControlSet? && Canonical(e.control) == HomePGW(m.byID[e.id]))
    ensures FullyCoherent(Step(m, e))
  {
    hide Coherent, IMSINewest, Create, Delete, RegisterS5C, RegisterPGW, SetPGWControl, NotePGW, IndexedByControl, Listed, TEIDAvailable, IsNewest;
    match e
    case Created(p, id, pick, now, newest) => CreateKeepsNewestIff(m, p, id, pick, now, newest);
    case Deleted(id, newest) => DeleteKeepsCoherent(m, id, newest);
    case S5CRegistered(id, t) => RegisterS5CKeeps(m, id, t);
    case PGWRegistered(id, addr) => RegisterPGWKeepsCoherentIff(m, id, addr); PGWKeepsIMSI(m, id, addr);
    case ControlSet(id, control) => SetPGWControlKeepsCoherentIff(m, id, control); PGWKeepsIMSI(m, id, control);
    case PGWNoted(id, addr) => NotePGWKeepsCoherentIff(m, id, addr); PGWKeepsIMSI(m, id, addr);
    case BearersSet(id, ebis) => SetBearersKeeps(m, id, ebis);
  }

  lemma RegisterS5CKeeps(m: State, id: ID, t: u32)
    requires FullyCoherent(m) && (id in m.byID ==> m.byID[id].s5c == 0 && t != 0 && t !in m.byS5C)
    ensures FullyCoherent(RegisterS5C(m, id, t))
  {
    hide Coherent;
    if id in m.byID {
      RegisterS5CKeepsCoherentIff(m, id, t);
      FieldsOnly(m, id, m.byID[id].(s5c := t));
    }
  }

  lemma SetBearersKeeps(m: State, id: ID, ebis: set<byte>)
    requires FullyCoherent(m)
    ensures FullyCoherent(SetBearers(m, id, ebis))
  {
    hide S11Coherent, PDNCoherent, IMSICoherent, S5CCoherent, PGWCoherent, IMSINewest, TEIDCoherent;
    if id in m.byID {
      FieldsOnly(m, id, m.byID[id].(ebis := ebis));
    }
  }

  lemma PGWKeepsIMSI(m: State, id: ID, addr: Addr)
    ensures RegisterPGW(m, id, addr).byIMSI == SetPGWControl(m, id, addr).byIMSI == NotePGW(m, id, addr).byIMSI == m.byIMSI
  {
  }

  lemma StepKeepsRecorded(m: State, e: Event)
    requires FullyCoherent(m) && Allowed(m, e) && Recorded(m)
    ensures Recorded(Step(m, e))
  {
    hide S11Coherent, PDNCoherent, IMSICoherent, S5CCoherent, IMSINewest, TEIDCoherent, Listed, DropPGW, DropIMSI, DropS11, IsNewest;
    match e
    case Created(p, id, pick, now, newest) => CreatedRecorded(m, p, id, pick, now, newest);
    case Deleted(id, newest) => DeletedRecorded(m, id, newest);
    case PGWRegistered(id, addr) => RegisteredRecorded(m, id, addr);
    case PGWNoted(id, addr) => NotedRecorded(m, id, addr);
    case _ =>
  }

  /** The entries left after a removal belong to other sessions and were there before. */
  lemma DropRecorded(m: State, id: ID)
    requires PGWCoherent(m.byID, m.byPGW) && id in m.byID
    ensures forall a, x :: Listed(DropPGW(m.byPGW, HomePGW(m.byID[id]), id), a, x) ==> x != id && Listed(m.byPGW, a, x)
  {
    hide DropPGW;
    DropPGWLists(m.byPGW, HomePGW(m.byID[id]), id);
  }

  lemma RemovedRecorded(m: State, id: ID, newest: Option<ID>)
    requires PGWCoherent(m.byID, m.byPGW) && Recorded(m) && id in m.byID
    ensures Recorded(Removed(m, id, newest))
  {
    hide Listed, DropPGW, DropIMSI, DropS11, PGWCoherent;
    DropRecorded(m, id);
  }

  lemma CreatedRecorded(m: State, p: CreateParams, id: ID, pick: u32, now: int, newest: Option<ID>)
    requires PGWCoherent(m.byID, m.byPGW) && Recorded(m) && id !in m.byID
    ensures Recorded(Create(m, p, id, pick, now, newest))
  {
    hide Listed, Evict, PGWCoherent, Recorded;
    var reserved := if p.reuseS11 == 0 then m.(used := m.used + {pick}) else m;
    var t := if p.reuseS11 == 0 then pick else p.reuseS11;
    PoolDoesNotMatter(m, reserved);
    EvictedRecorded(reserved, PDN(p.imsi, p.ebi), t, newest, id);
    InsertedRecorded(Evict(reserved, PDN(p.imsi, p.ebi), t, newest), id, NewSession(p, t, now));
  }

  lemma PoolDoesNotMatter(m: State, n: State)
    requires Recorded(m) && n.byID == m.byID && n.byPGW == m.byPGW
    ensures Recorded(n)
  {
  }

  lemma InsertedRecorded(m: State, id: ID, s: Session)
    requires Recorded(m) && id !in m.byID
    ensures Recorded(Insert(m, id, s))
  {
    hide Listed;
  }

  lemma EvictedRecorded(m: State, pdn: PDN, t: u32, newest: Option<ID>, id: ID)
    requires PGWCoherent(m.byID, m.byPGW) && Recorded(m) && id !in m.byID
    ensures Recorded(Evict(m, pdn, t, newest)) && id !in Evict(m, pdn, t, newest).byID
  {
    hide Listed, Removed, PGWCoherent;
    if pdn in m.byPDN && m.byPDN[pdn] in m.byID {
      RemovedRecorded(m, m.byPDN[pdn], newest);
      StillAbsent(m, m.byPDN[pdn], newest, id);
    }
  }

  lemma StillAbsent(m: State, gone: ID, newest: Option<ID>, id: ID)
    requires gone in m.byID && id !in m.byID
    ensures id !in Removed(m, gone, newest).byID
  {
  }

  lemma RegisteredRecorded(m: State, id: ID, addr: Addr)
    requires PGWCoherent(m.byID, m.byPGW) && Recorded(m)
    ensures Recorded(RegisterPGW(m, id, addr))
  {
    hide DropPGW;
    if Canonical(addr) != NoAddr && id in m.byID {
      RegisterPGWLists(m, id, addr);
    }
  }

  lemma DeletedRecorded(m: State, id: ID, newest: Option<ID>)
    requires PGWCoherent(m.byID, m.byPGW) && Recorded(m)
    ensures Recorded(Delete(m, id, newest))
  {
    hide Listed, Removed, PGWCoherent;
    if id in m.byID {
      RemovedRecorded(m, id, newest);
    }
  }

  lemma NotedRecorded(m: State, id: ID, addr: Addr)
    requires Recorded(m) && (Canonical(addr) == NoAddr || id !in m.byID || Listed(m.byPGW, Canonical(addr), id))
    ensures Recorded(NotePGW(m, id, addr))
  {
    hide Listed;
  }

  ghost predicate Legal(es: seq<Event>) {
    es == [] || (Legal(es[..|es| - 1]) && Allowed(Run(es[..|es| - 1]), es[|es| - 1]))
  }

  function Run(es: seq<Event>): State {
    if es == [] then EMPTY else Step(Run(es[..|es| - 1]), es[|es| - 1])
  }

  /**
   * Over every run of creations with eviction and TEID reuse, registrations, path notices
   * and deletions, all six indexes and the TEID pool agree with the live sessions.
   */
  lemma {:induction false} RunIsCoherent(es: seq<Event>)
    requires Legal(es)
    ensures FullyCoherent(Run(es)) && Recorded(Run(es))
  {
    if es != [] {
      hide FullyCoherent, Allowed, Step;
      var m, e := Run(es[..|es| - 1]), es[|es| - 1];
      RunIsCoherent(es[..|es| - 1]);
      RecordedIsNotByControl(m);
      StepKeepsCoherent(m, e);
      StepKeepsRecorded(m, e);
    }
  }

  lemma RecordedIsNotByControl(m: State)
    requires FullyCoherent(m) && Recorded(m)
    ensures forall id :: !IndexedByControl(m, id)
  {
  }

  // ---- The store --------------------------------------------------------------

  /** The last listed session with a property, when the scan from the end finds one. */
  ghost predicate LastWith(list: seq<ID>, has: ID -> bool, r: Option<ID>) {
    match r
    case None => forall i :: 0 <= i < |list| ==> !has(list[i])
    case Some(id) => exists i :: 0 <= i < |list| && list[i] == id && has(id) && forall j :: i < j < |list| ==> !has(list[j])
  }

  /** In a coherent store a scan of a TEID's list misses no live session of that TEID. */
  lemma ScanIsComplete(m: State, t: u32, has: ID -> bool, r: Option<ID>)
    requires S11Coherent(m.byID, m.byS11)
    requires LastWith(if t in m.byS11 then m.byS11[t] else [], has, r)
    ensures r == None <==> forall id :: id in m.byID && m.byID[id].s11 == t ==> !has(id)
    ensures r.Some? ==> r.value in m.byID && m.byID[r.value].s11 == t && has(r.value)
  {
    if r == None {
      forall id | id in m.byID && m.byID[id].s11 == t ensures !has(id) {
        assert id in m.byS11[t];
      }
    } else {
      assert r.value in m.byS11[t];
    }
  }

  /** A subscriber's newest session can always be chosen. */
  lemma {:induction false} NewestExists(byID: map<ID, Session>, imsi: string, among: set<ID>) returns (newest: Option<ID>)
    requires among <= byID.Keys
    ensures match newest
            case None => forall id :: id in among ==> byID[id].imsi != imsi
            case Some(n) => n in among && byID[n].imsi == imsi &&
                            forall id :: id in among && byID[id].imsi == imsi ==> byID[id].createdAt <= byID[n].createdAt
  {
    if among == {} {
      newest := None;
    } else {
      var x :| x in among;
      var rest := NewestExists(byID, imsi, among - {x});
      newest := if byID[x].imsi == imsi && (rest == None || byID[x].createdAt > byID[rest.value].createdAt) then Some(x) else rest;
    }
  }

  /**
   * A session as creation leaves it: what the request asked for under the chosen S11 TEID, one
   * bearer, no PGW yet, and found by identifier, PDN connection, subscriber and S11 TEID.
   */
  ghost predicate HoldsCreated(m: State, p: CreateParams, id: ID, t: u32, now: int) {
    && id in m.byID
    && (var s := m.byID[id];
        && s.imsi == p.imsi && s.defaultEBI == p.ebi && s.s11 == t && s.createdAt == now
        && (forall e :: e in s.ebis <==> e == p.ebi)
        && s.s5c == 0 && s.pgwAddr == NoAddr && s.pgwControl == NoAddr)
    && PDN(p.imsi, p.ebi) in m.byPDN && m.byPDN[PDN(p.imsi, p.ebi)] == id
    && p.imsi in m.byIMSI && m.byIMSI[p.imsi] == id
    && t in m.byS11 && LastWith(m.byS11[t], HasBearer(m.byID, p.ebi), Some(id))
    && LastWith(m.byS11[t], DefaultIs(m.byID, p.ebi), Some(id)) && LastWith(m.byS11[t], x => true, Some(id))
  }

  /**
   * What creation stores: the new session, found by every scan of its TEID's list, beside all
   * earlier ones except the one it collides with on its PDN connection.
   */
  lemma CreatedSession(m: State, p: CreateParams, id: ID, pick: u32, now: int, newest: Option<ID>)
    ensures var n, t := Create(m, p, id, pick, now, newest), if p.reuseS11 == 0 then pick else p.reuseS11;
            && HoldsCreated(n, p, id, t, now)
            && (forall x :: x in n.byID && x != id ==> x in m.byID && n.byID[x] == m.byID[x])
            && (forall x :: x in m.byID && x !in n.byID ==> PDN(p.imsi, p.ebi) in m.byPDN && x == m.byPDN[PDN(p.imsi, p.ebi)])
            && (PDN(p.imsi, p.ebi) in m.byPDN && m.byPDN[PDN(p.imsi, p.ebi)] != id ==> m.byPDN[PDN(p.imsi, p.ebi)] !in n.byID)
  {
    hide Evict, Insert, HoldsCreated, NewSession;
    var t := if p.reuseS11 == 0 then pick else p.reuseS11;
    var reserved := if p.reuseS11 == 0 then m.(used := m.used + {pick}) else m;
    var pdn := PDN(p.imsi, p.ebi);
    EvictedOnly(reserved, pdn, t, newest);
    InsertedIsHeld(Evict(reserved, pdn, t, newest), p, id, t, now);
  }

  lemma EvictedOnly(m: State, pdn: PDN, t: u32, newest: Option<ID>)
    ensures Evict(m, pdn, t, newest).byID == if pdn in m.byPDN then m.byID - {m.byPDN[pdn]} else m.byID
  {
    hide DropS11, DropPGW, DropIMSI;
    if pdn in m.byPDN && m.byPDN[pdn] !in m.byID {
      assert m.byID - {m.byPDN[pdn]} == m.byID;
    }
  }

  lemma InsertedIsHeld(m: State, p: CreateParams, id: ID, t: u32, now: int)
    ensures HoldsCreated(Insert(m, id, NewSession(p, t, now)), p, id, t, now)
    ensures Insert(m, id, NewSession(p, t, now)).byID == m.byID[id := NewSession(p, t, now)]
  {
    var list := Insert(m, id, NewSession(p, t, now)).byS11[t];
    assert list[|list| - 1] == id;
  }

  ghost predicate CreatedFrom(before: State, after: State, p: CreateParams, id: ID, pick: u32, now: int) {
    exists newest :: FallbackChosen(before, p, newest) && after == Create(before, p, id, pick, now, newest)
  }

  class Manager {
    var byID: map<ID, Session>
    var byS11: map<u32, seq<ID>>
    var byS5C: map<u32, ID>
    var byPGW: map<Addr, set<ID>>
    var byIMSI: map<string, ID>
    var byPDN: map<PDN, ID>
    var used: set<u32>

    function View(): State
      reads this
    {
      State(byID, byS11, byS5C, byPGW, byIMSI, byPDN, used)
    }

    constructor ()
      ensures View() == EMPTY
    {
      byID, byS11, byS5C, byPGW, byIMSI, byPDN, used := map[], map[], map[], map[], map[], map[], {};
    }

    method FreeTEID(t: u32)
      modifies this`used
      ensures used == old(used) - {t}
    {
      used := used - {t};
    }

    method RemovePGWLocked(addr: Addr, id: ID)
      modifies this`byPGW
      ensures byPGW == DropPGW(old(byPGW), addr, id)
    {
      var canonical := Canonical(addr);
      if canonical == NoAddr || canonical !in byPGW {
        return;
      }
      byPGW := byPGW[canonical := byPGW[canonical] - {id}];
      if byPGW[canonical] == {} {
        byPGW := byPGW - {canonical};
      }
    }

    method Filtered(list: seq<ID>, id: ID) returns (filtered: seq<ID>)
      ensures filtered == Without(list, id)
    {
      filtered := [];
      for i := 0 to |list|
        invariant filtered == Without(list[..i], id)
      {
        assert list[..i + 1][..i] == list[..i];
        if list[i] != id {
          filtered := filtered + [list[i]];
        }
      }
      assert list[..|list|] == list;
    }

    /** Scans the live sessions in any order, keeping the first of the latest it meets. */
    method NewestOf(imsi: string) returns (newest: Option<ID>)
      ensures IsNewest(byID, imsi, newest)
    {
      newest := None;
      var todo := byID.Keys;
      while todo != {}
        invariant todo <= byID.Keys
        invariant newest.Some? ==> newest.value in byID && byID[newest.value].imsi == imsi
        invariant forall x :: x in byID && x !in todo && byID[x].imsi == imsi ==>
                    newest.Some? && byID[x].createdAt <= byID[newest.value].createdAt
        decreases |todo|
      {
        var x :| x in todo;
        todo := todo - {x};
        if byID[x].imsi == imsi {
          if newest == None || byID[x].createdAt > byID[newest.value].createdAt {
            newest := Some(x);
          }
        }
      }
    }

    method UnlistS11(t: u32, id: ID)
      modifies this`byS11
      ensures byS11 == DropS11(old(byS11), t, id)
    {
      hide Without;
      if t in byS11 {
        var filtered := Filtered(byS11[t], id);
        if filtered == [] {
          byS11 := byS11 - {t};
        } else {
          byS11 := byS11[t := filtered];
        }
      }
    }

    method UnlistPGW(s: Session, id: ID)
      modifies this`byPGW
      ensures byPGW == DropPGW(old(byPGW), HomePGW(s), id)
    {
      hide DropPGW;
      if s.pgwAddr != NoAddr {
        RemovePGWLocked(s.pgwAddr, id);
        DropCanonical(old(byPGW), s.pgwAddr, id);
      } else if s.pgwControl != NoAddr {
        RemovePGWLocked(Canonical(s.pgwControl), id);
      } else {
        DropNowhere(byPGW, id);
      }
    }

    method UnlistIMSI(imsi: string, id: ID) returns (ghost newest: Option<ID>)
      modifies this`byIMSI
      ensures IsNewest(byID, imsi, newest) && byIMSI == DropIMSI(old(byIMSI), imsi, id, newest)
    {
      hide IsNewest;
      if imsi in byIMSI && byIMSI[imsi] == id {
        byIMSI := byIMSI - {imsi};
        var found := NewestOf(imsi);
        newest := found;
        if found.Some? {
          byIMSI := byIMSI[imsi := found.value];
        }
      } else {
        newest := NewestExists(byID, imsi, byID.Keys);
        NewestAmongAll(byID, imsi, newest);
      }
    }

    method RemoveLocked(id: ID) returns (ghost newest: Option<ID>)
      requires id in byID
      modifies this`byID, this`byS11, this`byS5C, this`byPGW, this`byIMSI, this`byPDN
      ensures IsNewest(old(byID) - {id}, old(byID[id]).imsi, newest)
      ensures View() == Removed(old(View()), id, newest)
    {
      hide DropS11, DropPGW, DropIMSI, IsNewest;
      var s := byID[id];
      byID := byID - {id};
      UnlistS11(s.s11, id);
      if s.s5c != 0 {
        byS5C := byS5C - {s.s5c};
      }
      UnlistPGW(s, id);
      var pdn := PDNOf(s);
      if pdn in byPDN && byPDN[pdn] == id {
        byPDN := byPDN - {pdn};
      }
      newest := UnlistIMSI(s.imsi, id);
    }

    /**
     * The TEID allocator and the identifier generator may each fail, which changes nothing;
     * what they produce is new.
     */
    method CreateSession(p: CreateParams, alloc: Option<u32>, newID: Option<ID>, now: int) returns (r: Option<(ID, Option<ID>)>)
      requires alloc.Some? ==> alloc.value != 0 && alloc.value !in used
      requires PDNCoherent(byID, byPDN)
      modifies this
      ensures r.None? <==> (p.reuseS11 == 0 && alloc.None?) || newID.None?
      ensures r.None? ==> View() == old(View())
      ensures r.Some? ==> var pdn := PDN(p.imsi, p.ebi);
                          && r.value.0 == newID.value
                          && r.value.1 == (if pdn in old(byPDN) then Some(old(byPDN)[pdn]) else None)
      ensures r.Some? ==> var pick := if p.reuseS11 == 0 then alloc.value else 0;
                          CreatedFrom(old(View()), View(), p, newID.value, pick, now)
      ensures r.Some? ==> HoldsCreated(View(), p, newID.value, if p.reuseS11 == 0 then alloc.value else p.reuseS11, now)
    {
      hide Removed, IsNewest, HoldsCreated;
      var t := p.reuseS11;
      if t == 0 {
        if alloc.None? {
          return None;
        }
        t := alloc.value;
        used := used + {t};
      }
      if newID.None? {
        if p.reuseS11 == 0 {
          FreeTEID(t);
        }
        return None;
      }
      var id := newID.value;
      var s := NewSession(p, t, now);
      var pdn, evicted := PDN(p.imsi, p.ebi), None;
      ghost var newest: Option<ID> := None;
      ghost var reserved := View();
      if pdn in byPDN {
        var gone := byPDN[pdn];
        evicted := Some(gone);
        var goneS11 := byID[gone].s11;
        newest := RemoveLocked(gone);
        if goneS11 != t && goneS11 !in byS11 {
          FreeTEID(goneS11);
        }
      }
      assert View() == Evict(reserved, pdn, t, newest);
      byID := byID[id := s];
      byS11 := byS11[t := (if t in byS11 then byS11[t] else []) + [id]];
      byPDN := byPDN[pdn := id];
      byIMSI := byIMSI[p.imsi := id];
      assert FallbackChosen(old(View()), p, newest);
      assert View() == Create(old(View()), p, id, if p.reuseS11 == 0 then alloc.value else 0, now, newest);
      CreatedSession(old(View()), p, id, if p.reuseS11 == 0 then alloc.value else 0, now, newest);
      return Some((id, evicted));
    }

    method DeleteSession(id: ID)
      modifies this
      ensures exists newest :: (id in old(byID) ==> IsNewest(old(byID) - {id}, old(byID)[id].imsi, newest)) &&
                               View() == Delete(old(View()), id, newest)
      ensures byID == old(byID) - {id}
    {
      hide Removed, IsNewest;
      ghost var newest: Option<ID> := None;
      if id !in byID {
        assert View() == Delete(old(View()), id, newest);
        assert byID - {id} == byID;
        return;
      }
      var t := byID[id].s11;
      newest := RemoveLocked(id);
      RemovedFields(old(View()), id, newest);
      if t !in byS11 {
        FreeTEID(t);
      }
      assert View() == Delete(old(View()), id, newest);
    }

    method SetSGWS5CFTEID(id: ID, t: u32)
      modifies this`byID
      ensures View() == StoreS5C(old(View()), id, t)
    {
      if id in byID {
        byID := byID[id := byID[id].(s5c := t)];
      }
    }

    method RegisterS5CTEID(id: ID, t: u32)
      modifies this`byS5C
      ensures View() == IndexS5C(old(View()), id, t)
    {
      if id in byID {
        byS5C := byS5C[t := id];
      }
    }

    method RegisterPGWEndpoint(id: ID, addr: Addr)
      modifies this
      ensures View() == RegisterPGW(old(View()), id, addr)
    {
      hide DropPGW;
      var canonical := Canonical(addr);
      if canonical == NoAddr || id !in byID {
        return;
      }
      var s := byID[id];
      if s.pgwAddr != NoAddr && s.pgwAddr != canonical {
        RemovePGWLocked(s.pgwAddr, id);
      }
      if canonical !in byPGW {
        byPGW := byPGW[canonical := {}];
      }
      byPGW := byPGW[canonical := byPGW[canonical] + {id}];
      byID := byID[id := s.(pgwAddr := canonical)];
    }

    method FindByPGW(addr: Addr) returns (ids: set<ID>)
      ensures forall id :: id in ids <==> Canonical(addr) != NoAddr && Listed(byPGW, Canonical(addr), id)
    {
      var canonical := Canonical(addr);
      if canonical == NoAddr || canonical !in byPGW {
        return {};
      }
      ids := byPGW[canonical];
    }

    /** One collected session's turn. */
    method SetPGWPathState(id: ID, addr: Addr)
      modifies this`byID
      ensures View() == NotePGW(old(View()), id, addr)
    {
      if Canonical(addr) != NoAddr && id in byID {
        byID := byID[id := byID[id].(pgwAddr := Canonical(addr))];
      }
    }

    method FindByS11TEID(t: u32) returns (r: Option<ID>)
      ensures LastWith(if t in byS11 then byS11[t] else [], id => true, r)
    {
      if t !in byS11 || byS11[t] == [] {
        return None;
      }
      r := Some(byS11[t][|byS11[t]| - 1]);
    }

    method FindByS11TEIDAndDefaultBearer(t: u32, ebi: byte) returns (r: Option<ID>)
      requires S11Coherent(byID, byS11)
      ensures LastWith(if t in byS11 then byS11[t] else [], DefaultIs(byID, ebi), r)
      ensures match r
              case None => forall id :: id in byID && byID[id].s11 == t ==> byID[id].defaultEBI != ebi
              case Some(id) => id in byID && byID[id].s11 == t && byID[id].defaultEBI == ebi
    {
      hide S11Coherent;
      ListedAreComplete(byID, byS11, t);
      ListedAreLive(byID, byS11, t);
      var list := if t in byS11 then byS11[t] else [];
      for i := |list| downto 0
        invariant forall j :: i <= j < |list| ==> byID[list[j]].defaultEBI != ebi
      {
        if byID[list[i]].defaultEBI == ebi {
          return Some(list[i]);
        }
      }
      return None;
    }

    method FindByS11TEIDAndBearer(t: u32, ebi: byte) returns (r: Option<ID>)
      requires S11Coherent(byID, byS11)
      ensures LastWith(if t in byS11 then byS11[t] else [], HasBearer(byID, ebi), r)
      ensures match r
              case None => forall id :: id in byID && byID[id].s11 == t ==> ebi !in byID[id].ebis
              case Some(id) => id in byID && byID[id].s11 == t && ebi in byID[id].ebis
    {
      hide S11Coherent;
      ListedAreComplete(byID, byS11, t);
      ListedAreLive(byID, byS11, t);
      var list := if t in byS11 then byS11[t] else [];
      for i := |list| downto 0
        invariant forall j :: i <= j < |list| ==> ebi !in byID[list[j]].ebis
      {
        if ebi in byID[list[i]].ebis {
          return Some(list[i]);
        }
      }
      return None;
    }
  }

  ghost function DefaultIs(byID: map<ID, Session>, ebi: byte): ID -> bool {
    id => id in byID && byID[id].defaultEBI == ebi
  }

  ghost function HasBearer(byID: map<ID, Session>, ebi: byte): ID -> bool {
    id => id in byID && ebi in byID[id].ebis
  }

  lemma ListedAreLive(byID: map<ID, Session>, byS11: map<u32, seq<ID>>, t: u32)
    requires S11Coherent(byID, byS11)
    ensures t in byS11 ==> forall i :: 0 <= i < |byS11[t]| ==> byS11[t][i] in byID
  {
  }

  lemma ListedAreComplete(byID: map<ID, Session>, byS11: map<u32, seq<ID>>, t: u32)
    requires S11Coherent(byID, byS11)
    ensures forall id :: id in byID && byID[id].s11 == t ==> t in byS11 && id in byS11[t]
    ensures t in byS11 ==> forall i :: 0 <= i < |byS11[t]| ==> byS11[t][i] in byID && byID[byS11[t][i]].s11 == t
  {
  }

  lemma NewestAmongAll(byID: map<ID, Session>, imsi: string, newest: Option<ID>)
    requires match newest
             case None => forall id :: id in byID.Keys ==> byID[id].imsi != imsi
             case Some(n) => n in byID.Keys && byID[n].imsi == imsi &&
                             forall id :: id in byID.Keys && byID[id].imsi == imsi ==> byID[id].createdAt <= byID[n].createdAt
    ensures IsNewest(byID, imsi, newest)
  {
  }

  lemma DropCanonical(byPGW: map<Addr, set<ID>>, addr: Addr, id: ID)
    ensures DropPGW(byPGW, addr, id) == DropPGW(byPGW, Canonical(addr), id)
  {
  }

  lemma DropNowhere(byPGW: map<Addr, set<ID>>, id: ID)
    ensures DropPGW(byPGW, NoAddr, id) == byPGW
  {
  }
}
