/**
 * The XDP program of the SGW-U (ebpf/xdp_sgw_gtpu.c): one received frame is looked up in the
 * forwarding map, and a matched G-PDU is rewritten in place and redirected (TS 29.281 section 5.1).
 */
module XdpProgram {
  import opened Wrappers
  import opened Bytes
  import opened Addresses
  import opened Checksum
  import opened RuleCompiler

  datatype Verdict = Pass | Dropped | Redirect(ifindex: u32)

  datatype Marking = Marking(
    enabled: bool, gtpuEnabled: bool, gtpuDSCP: byte, qciEnabled: bool, qciDefaultDSCP: byte)

  type MAC = b: seq<byte> | |b| == 6 witness [0, 0, 0, 0, 0, 0]

  /** What a successful route lookup of the rewritten packet answers. */
  datatype Fib = Fib(ifindex: u32, source: MAC, dest: MAC)

  // Frame layout: Ethernet 0..14, IPv4 14..34, UDP 34..42, GTP-U 42..50.
  const HEADERS: nat := 50

  function Word16(p: seq<byte>, at: nat): u16
    requires at + 2 <= |p|
  {
    (p[at] as int) * 256 + p[at + 1]
  }

  /** An unfragmented IPv4 packet without options, to the GTP-U port, carrying a plain version 1 G-PDU. */
  predicate FastPath(p: seq<byte>) {
    && |p| >= HEADERS
    && Word16(p, 12) == 0x0800
    && p[14] % 16 == 5
    && Word16(p, 20) % 0x4000 == 0
    && p[23] == 17
    && Word16(p, 36) == 2152
    && p[42] / 16 == 3 && p[42] / 4 % 2 == 0
    && p[43] == 255
  }

  lemma FastPathHasHeaders(p: seq<byte>)
    requires FastPath(p)
    ensures |p| >= HEADERS
  {
  }

  function TEIDOf(p: seq<byte>): u32
    requires |p| >= HEADERS
  {
    Get32(p[46..50])
  }

  // ---- Frame layout -----------------------------------------------------------

  /** The parts of a frame that the program tells apart, in order. */
  datatype Frame = Frame(
    dest: seq<byte>, source: seq<byte>, etherType: seq<byte>,
    versionIHL: byte, tos: byte, lengthToProtocol: seq<byte>, check: seq<byte>, src: seq<byte>, dst: seq<byte>,
    portsAndLength: seq<byte>, udpCheck: seq<byte>, gtp: seq<byte>, teid: seq<byte>, rest: seq<byte>)

  predicate Sized(f: Frame) {
    && |f.dest| == 6 && |f.source| == 6 && |f.etherType| == 2
    && |f.lengthToProtocol| == 8 && |f.check| == 2 && |f.src| == 4 && |f.dst| == 4
    && |f.portsAndLength| == 6 && |f.udpCheck| == 2 && |f.gtp| == 4 && |f.teid| == 4
  }

  function Layout(p: seq<byte>): (f: Frame)
    requires |p| >= HEADERS
    ensures Sized(f)
  {
    Frame(p[0..6], p[6..12], p[12..14], p[14], p[15], p[16..24], p[24..26], p[26..30], p[30..34],
          p[34..40], p[40..42], p[42..46], p[46..50], p[50..])
  }

  /** The IPv4 header of a frame. */
  function HeaderBytes(f: Frame): seq<byte> {
    [f.versionIHL, f.tos] + f.lengthToProtocol + f.check + (f.src + f.dst)
  }

  function FrameBytes(f: Frame): seq<byte> {
    f.dest + f.source + f.etherType + HeaderBytes(f) + f.portsAndLength + f.udpCheck + f.gtp + f.teid + f.rest
  }

  lemma LayoutRoundTrip(p: seq<byte>)
    requires |p| >= HEADERS
    ensures FrameBytes(Layout(p)) == p
  {
  }

  lemma FrameRoundTrip(f: Frame)
    requires Sized(f)
    ensures |FrameBytes(f)| >= HEADERS && |FrameBytes(f)| == HEADERS + |f.rest|
    ensures Layout(FrameBytes(f)) == f
    ensures FrameBytes(f)[14..34] == HeaderBytes(f)
  {
    var b, h := FrameBytes(f), HeaderBytes(f);
    assert |h| == 20;
    assert b[0..6] == f.dest && b[6..12] == f.source && b[12..14] == f.etherType;
    assert b[14..34] == h;
    HeaderParts(f);
    assert b[16..24] == h[2..10] && b[24..26] == h[10..12] && b[26..30] == h[12..16] && b[30..34] == h[16..20];
    assert b[14] == h[0] && b[15] == h[1];
    assert b[34..40] == f.portsAndLength && b[40..42] == f.udpCheck && b[42..46] == f.gtp && b[46..50] == f.teid;
    assert b[50..] == f.rest;
  }

  lemma HeaderParts(f: Frame)
    requires Sized(f)
    ensures var h := HeaderBytes(f);
            && |h| == 20 && h[0] == f.versionIHL && h[1] == f.tos
            && h[2..10] == f.lengthToProtocol && h[10..12] == f.check && h[12..16] == f.src && h[16..20] == f.dst
  {
  }

  /**
   * Exactly which frames take the fast path, header by header: IPv4 with no options and no
   * fragment, UDP to port 2152, and a version 1 G-PDU without extension headers. The TEID is read most
   * significant octet first.
   */
  lemma FastPathIff(f: Frame)
    requires Sized(f)
    ensures FastPath(FrameBytes(f)) <==>
            && f.etherType == [8, 0] && f.versionIHL % 16 == 5
            && f.lengthToProtocol[4] % 64 == 0 && f.lengthToProtocol[5] == 0 && f.lengthToProtocol[7] == 17
            && f.portsAndLength[2..4] == [8, 104]
            && f.gtp[0] / 16 == 3 && f.gtp[0] / 4 % 2 == 0 && f.gtp[1] == 255
    ensures |FrameBytes(f)| >= HEADERS
    ensures TEIDOf(FrameBytes(f)) ==
            (f.teid[0] as int) * 0x100_0000 + (f.teid[1] as int) * 0x1_0000 + (f.teid[2] as int) * 0x100 + f.teid[3]
  {
    hide FrameBytes;
    FrameRoundTrip(f);
    var p := FrameBytes(f);
    assert p[12] == p[12..14][0] && p[13] == p[12..14][1];
    assert p[20] == p[16..24][4] && p[21] == p[16..24][5] && p[23] == p[16..24][7];
    assert p[36] == p[34..40][2] && p[37] == p[34..40][3];
    assert p[42] == p[42..46][0] && p[43] == p[42..46][1];
  }

  /** The bytes with some of them replaced from an offset on. */
  function Put(p: seq<byte>, at: nat, bytes: seq<byte>): seq<byte>
    requires at + |bytes| <= |p|
  {
    p[..at] + bytes + p[at + |bytes|..]
  }

  lemma PutDestMAC(f: Frame, v: seq<byte>)
    requires Sized(f) && |v| == 6
    ensures |FrameBytes(f)| >= HEADERS
    ensures Put(FrameBytes(f), 0, v) == FrameBytes(f.(dest := v))
  {
  }

  lemma PutSourceMAC(f: Frame, v: seq<byte>)
    requires Sized(f) && |v| == 6
    ensures |FrameBytes(f)| >= HEADERS
    ensures Put(FrameBytes(f), 6, v) == FrameBytes(f.(source := v))
  {
  }

  lemma PutTOS(f: Frame, v: byte)
    requires Sized(f)
    ensures |FrameBytes(f)| >= HEADERS
    ensures FrameBytes(f)[15 := v] == FrameBytes(f.(tos := v))
  {
  }

  lemma TOSAt(f: Frame)
    requires Sized(f)
    ensures |FrameBytes(f)| >= HEADERS && FrameBytes(f)[15] == f.tos
  {
  }

  lemma PutCheck(f: Frame, v: seq<byte>)
    requires Sized(f) && |v| == 2
    ensures |FrameBytes(f)| >= HEADERS
    ensures Put(FrameBytes(f), 24, v) == FrameBytes(f.(check := v))
  {
  }

  lemma PutUDPCheck(f: Frame, v: seq<byte>)
    requires Sized(f) && |v| == 2
    ensures |FrameBytes(f)| >= HEADERS
    ensures Put(FrameBytes(f), 40, v) == FrameBytes(f.(udpCheck := v))
  {
  }

  lemma PutSource(f: Frame, v: seq<byte>)
    requires Sized(f) && |v| == 4
    ensures |FrameBytes(f)| >= HEADERS
    ensures Put(FrameBytes(f), 26, v) == FrameBytes(f.(src := v))
  {
  }

  lemma PutDestination(f: Frame, v: seq<byte>)
    requires Sized(f) && |v| == 4
    ensures |FrameBytes(f)| >= HEADERS
    ensures Put(FrameBytes(f), 30, v) == FrameBytes(f.(dst := v))
  {
  }

  lemma PutTEID(f: Frame, v: seq<byte>)
    requires Sized(f) && |v| == 4
    ensures |FrameBytes(f)| >= HEADERS
    ensures Put(FrameBytes(f), 46, v) == FrameBytes(f.(teid := v))
  {
  }

  // ---- The rewrite ------------------------------------------------------------

  /** The DSCP to write, if any: the bearer's own one only counts when QCI marking is on. */
  function MarkFor(marking: Option<Marking>, bearer: Option<byte>): Option<byte> {
    match marking
    case None => None
    case Some(m) =>
      if !m.enabled then None
      else if m.qciEnabled then Some((if bearer.Some? then bearer.value else m.qciDefaultDSCP) % 64)
      else if m.gtpuEnabled then Some(m.gtpuDSCP % 64)
      else None
  }

  /** DSCP is the upper six bits of the type-of-service byte, ECN the lower two. */
  function MarkedTOS(tos: byte, dscp: Option<byte>): byte {
    match dscp
    case None => tos
    case Some(d) => (d as int) % 64 * 4 + tos % 4
  }

  datatype Target = Target(egress: u32, src: IPv4, dst: IPv4, teid: u32, dscp: Option<byte>)

  /** Addresses, TEID and marking as the target says, a fresh header checksum, no UDP checksum. */
  function Retargeted(f: Frame, t: Target): (g: Frame)
    requires Sized(f)
    ensures Sized(g)
  {
    var zeroed := f.(src := t.src, dst := t.dst, tos := MarkedTOS(f.tos, t.dscp), check := [0, 0]);
    zeroed.(check := PutLittle16(HeaderChecksum(HeaderBytes(zeroed))), udpCheck := [0, 0], teid := Put32(t.teid))
  }

  /** Next-hop addresses, when the route agrees with the rule's egress. */
  function Routed(f: Frame, t: Target, fib: Option<Fib>): Frame {
    if fib.Some? && fib.value.ifindex == t.egress then f.(dest := fib.value.dest, source := fib.value.source) else f
  }

  /** The whole frame towards a target; whatever is not named above stays as received. */
  function Rewritten(p: seq<byte>, t: Target, fib: Option<Fib>): seq<byte>
    requires |p| >= HEADERS
  {
    FrameBytes(Routed(Retargeted(Layout(p), t), t, fib))
  }

  lemma RewrittenLayout(p: seq<byte>, t: Target, fib: Option<Fib>)
    requires |p| >= HEADERS
    ensures var r, f := Rewritten(p, t, fib), Routed(Retargeted(Layout(p), t), t, fib);
            |r| == |p| && Layout(r) == f && r[14..34] == HeaderBytes(f)
  {
    FrameRoundTrip(Routed(Retargeted(Layout(p), t), t, fib));
  }

  /** A receiver adding up the words of the rewritten IPv4 header gets 0xFFFF, whatever the packet and the rule. */
  lemma RewrittenHeaderVerifies(p: seq<byte>, t: Target, fib: Option<Fib>)
    requires |p| >= HEADERS
    ensures |Rewritten(p, t, fib)| == |p|
    ensures OnesSum(Rewritten(p, t, fib)[14..34]) == 0xFFFF
  {
    hide OnesSum, HeaderChecksum, FrameBytes, Rewritten;
    RewrittenLayout(p, t, fib);
    var f := Retargeted(Layout(p), t);
    StoredChecksumVerifies([f.versionIHL, f.tos] + f.lengthToProtocol, f.src + f.dst);
  }

  /** Marking never touches the ECN bits, and writes exactly the chosen DSCP. */
  lemma MarkingKeepsECN(p: seq<byte>, t: Target, fib: Option<Fib>)
    requires |p| >= HEADERS
    ensures |Rewritten(p, t, fib)| == |p|
    ensures Rewritten(p, t, fib)[15] % 4 == p[15] % 4
    ensures Rewritten(p, t, fib)[15] / 4 == match t.dscp case None => p[15] / 4 case Some(d) => d % 64
  {
    hide Rewritten, FrameBytes, HeaderChecksum;
    RewrittenLayout(p, t, fib);
    assert Layout(Rewritten(p, t, fib)).tos == Rewritten(p, t, fib)[15];
  }

  /** A rewritten frame carries the new addresses and TEID, still takes the fast path, and keeps its payload. */
  lemma RewrittenIsFastPath(p: seq<byte>, t: Target, fib: Option<Fib>)
    requires FastPath(p)
    ensures var r := Rewritten(p, t, fib);
            && FastPath(r) && TEIDOf(r) == t.teid
            && r[26..30] == t.src && r[30..34] == t.dst && r[50..] == p[50..]
  {
    hide Rewritten, FrameBytes, HeaderChecksum;
    RewrittenLayout(p, t, fib);
    Get32Put32(t.teid);
    var r := Rewritten(p, t, fib);
    var f, g := Layout(p), Layout(r);
    assert r[12] == g.etherType[0] && r[13] == g.etherType[1] && p[12] == f.etherType[0] && p[13] == f.etherType[1];
    assert r[14] == g.versionIHL && p[14] == f.versionIHL;
    assert r[20] == g.lengthToProtocol[4] && r[21] == g.lengthToProtocol[5] && r[23] == g.lengthToProtocol[7];
    assert p[20] == f.lengthToProtocol[4] && p[21] == f.lengthToProtocol[5] && p[23] == f.lengthToProtocol[7];
    assert r[36] == g.portsAndLength[2] && r[37] == g.portsAndLength[3];
    assert p[36] == f.portsAndLength[2] && p[37] == f.portsAndLength[3];
    assert r[42] == g.gtp[0] && r[43] == g.gtp[1] && p[42] == f.gtp[0] && p[43] == f.gtp[1];
  }

  /**
   * What else a rewrite changes: the UDP checksum is cleared, a route that agrees with the
   * egress supplies both MAC addresses, and every other byte is as received.
   */
  lemma RewrittenElsewhere(p: seq<byte>, t: Target, fib: Option<Fib>)
    requires |p| >= HEADERS
    ensures var r := Rewritten(p, t, fib);
            && |r| == |p| && r[40..42] == [0, 0]
            && (if fib.Some? && fib.value.ifindex == t.egress then r[0..6] == fib.value.dest && r[6..12] == fib.value.source
                else r[0..12] == p[0..12])
            && (forall k :: (12 <= k < 15 || 16 <= k < 24 || 34 <= k < 40 || 42 <= k < 46 || 50 <= k < |p|) ==> r[k] == p[k])
  {
    hide Rewritten, FrameBytes, HeaderChecksum;
    RewrittenLayout(p, t, fib);
    var r := Rewritten(p, t, fib);
    var f, g := Layout(p), Layout(r);
    assert r[0..12] == g.dest + g.source && p[0..12] == f.dest + f.source;
    forall k | 12 <= k < 15 || 16 <= k < 24 || 34 <= k < 40 || 42 <= k < 46 || 50 <= k < |p| ensures r[k] == p[k] {
      SamePart(p, r, k);
    }
  }

  lemma SamePart(p: seq<byte>, r: seq<byte>, k: nat)
    requires HEADERS <= |p| == |r|
    requires var f, g := Layout(p), Layout(r);
             && f.etherType == g.etherType && f.versionIHL == g.versionIHL && f.lengthToProtocol == g.lengthToProtocol
             && f.portsAndLength == g.portsAndLength && f.gtp == g.gtp && f.rest == g.rest
    requires 12 <= k < 15 || 16 <= k < 24 || 34 <= k < 40 || 42 <= k < 46 || 50 <= k < |p|
    ensures r[k] == p[k]
  {
    var f, g := Layout(p), Layout(r);
    assert k < 14 ==> p[k] == f.etherType[k - 12] && r[k] == g.etherType[k - 12];
    assert 16 <= k < 24 ==> p[k] == f.lengthToProtocol[k - 16] && r[k] == g.lengthToProtocol[k - 16];
    assert 34 <= k < 40 ==> p[k] == f.portsAndLength[k - 34] && r[k] == g.portsAndLength[k - 34];
    assert 42 <= k < 46 ==> p[k] == f.gtp[k - 42] && r[k] == g.gtp[k - 42];
    assert k >= 50 ==> p[k] == f.rest[k - 50] && r[k] == g.rest[k - 50];
  }

  // ---- The program ------------------------------------------------------------

  datatype Outcome = Outcome(verdict: Verdict, frame: seq<byte>)

  function TargetOf(v: Value, marking: Option<Marking>): Target {
    Target(v.egress, v.outerSrc, v.outerDst, v.newTEID, MarkFor(marking, if v.qosValid then Some(v.outerDSCP) else None))
  }

  /** What the program does with a frame that arrived on an interface. */
  function Process(rules: Rules, marking: Option<Marking>, p: seq<byte>, ifindex: u32, fib: Option<Fib>): Outcome {
    if !FastPath(p) || Key(TEIDOf(p), ifindex) !in rules then Outcome(Pass, p)
    else
      var v := rules[Key(TEIDOf(p), ifindex)];
      if v.action == DROP then Outcome(Dropped, p)
      else if v.action != FORWARD then Outcome(Pass, p)
      else Outcome(Redirect(v.egress), Rewritten(p, TargetOf(v, marking), fib))
  }

  class Program {
    const rules: Rules
    const marking: Option<Marking>
    var stats: map<u32, Counters>

    constructor (rules: Rules, marking: Option<Marking>, stats: map<u32, Counters>)
      ensures this.rules == rules && this.marking == marking && this.stats == stats
    {
      this.rules, this.marking, this.stats := rules, marking, stats;
    }

    method RewriteL3L4(p: array<byte>, v: Value, fib: Option<Fib>) returns (verdict: Verdict)
      requires p.Length >= HEADERS
      modifies p
      ensures verdict == Redirect(v.egress)
      ensures p[..] == Rewritten(old(p[..]), TargetOf(v, marking), fib)
    {
      hide FrameBytes, HeaderChecksum, Put, MarkFor, MarkedTOS;
      ghost var f := Layout(p[..]);
      LayoutRoundTrip(p[..]);
      Store(p, 26, v.outerSrc);
      PutSource(f, v.outerSrc);
      f := f.(src := v.outerSrc);
      Store(p, 30, v.outerDst);
      PutDestination(f, v.outerDst);
      f := f.(dst := v.outerDst);
      f := ApplyOuterDSCPMarking(p, v, f);
      Store(p, 24, [0, 0]);
      PutCheck(f, [0, 0]);
      f := f.(check := [0, 0]);
      FrameRoundTrip(f);
      var check := IPv4Csum(p[14..34]);
      Store(p, 24, PutLittle16(check));
      PutCheck(f, PutLittle16(check));
      f := f.(check := PutLittle16(check));
      Store(p, 40, [0, 0]);
      PutUDPCheck(f, [0, 0]);
      f := f.(udpCheck := [0, 0]);
      Store(p, 46, Put32(v.newTEID));
      PutTEID(f, Put32(v.newTEID));
      f := f.(teid := Put32(v.newTEID));
      if fib.Some? && fib.value.ifindex == v.egress {
        Store(p, 6, fib.value.source);
        PutSourceMAC(f, fib.value.source);
        f := f.(source := fib.value.source);
        Store(p, 0, fib.value.dest);
        PutDestMAC(f, fib.value.dest);
      }
      return Redirect(v.egress);
    }

    method ApplyOuterDSCPMarking(p: array<byte>, v: Value, ghost f: Frame) returns (ghost g: Frame)
      requires Sized(f) && p[..] == FrameBytes(f)
      modifies p
      ensures g == f.(tos := MarkedTOS(f.tos, TargetOf(v, marking).dscp)) && p[..] == FrameBytes(g)
    {
      hide FrameBytes, Layout;
      TOSAt(f);
      g := f;
      if marking.None? || !marking.value.enabled {
        return;
      }
      var m := marking.value;
      var dscp: int;
      if m.qciEnabled {
        if v.qosValid {
          dscp := v.outerDSCP % 64;
        } else {
          dscp := m.qciDefaultDSCP % 64;
        }
      } else if m.gtpuEnabled {
        dscp := m.gtpuDSCP % 64;
      } else {
        return;
      }
      assert p[15] == p[..][15] == f.tos;
      var ecn := p[15] % 4;
      PutTOS(f, dscp * 4 + ecn);
      p[15] := dscp * 4 + ecn;
      g := f.(tos := dscp * 4 + ecn);
    }

    method TakesFastPath(p: array<byte>) returns (fast: bool)
      ensures fast == FastPath(p[..])
    {
      if p.Length < HEADERS {
        return false;
      }
      if Word16(p[..], 12) != 0x0800 || p[23] != 17 {
        return false;
      }
      var headerLength := p[14] as int % 16 * 4;
      if headerLength != 20 || Word16(p[..], 20) % 0x4000 != 0 || Word16(p[..], 36) != 2152 {
        return false;
      }
      var flags := p[42];
      fast := flags / 16 == 3 && p[43] == 255 && flags / 4 % 2 == 0;
    }

    /** A redirected frame is counted, but only where the compiler created an entry. */
    method Run(p: array<byte>, ifindex: u32, fib: Option<Fib>) returns (verdict: Verdict)
      modifies this, p
      ensures Outcome(verdict, p[..]) == Process(rules, marking, old(p[..]), ifindex, fib)
      ensures !verdict.Redirect? ==> stats == old(stats)
      ensures verdict.Redirect? ==>
                var id := rules[Key(TEIDOf(old(p[..])), ifindex)].counterId;
                stats == if id in old(stats) then old(stats)[id := Counters(old(stats)[id].packets + 1, old(stats)[id].bytes + p.Length)]
                         else old(stats)
    {
      hide FastPath, TEIDOf, Rewritten, TargetOf;
      var fast := TakesFastPath(p);
      if !fast {
        return Pass;
      }
      FastPathHasHeaders(p[..]);
      var key := Key(TEIDOf(p[..]), ifindex);
      if key !in rules {
        return Pass;
      }
      var v := rules[key];
      if v.action == DROP {
        return Dropped;
      }
      if v.action != FORWARD {
        return Pass;
      }
      if v.counterId in stats {
        var s := stats[v.counterId];
        stats := stats[v.counterId := Counters(s.packets + 1, s.bytes + p.Length)];
      }
      verdict := RewriteL3L4(p, v, fib);
    }
  }

  /** Copies bytes into a frame. */
  method Store(p: array<byte>, at: nat, bytes: seq<byte>)
    requires at + |bytes| <= p.Length
    modifies p
    ensures p[..] == Put(old(p[..]), at, bytes)
  {
    for i := 0 to |bytes|
      invariant forall k :: 0 <= k < p.Length ==> p[k] == if at <= k < at + i then bytes[k - at] else old(p[k])
    {
      p[at + i] := bytes[i];
    }
  }

  // ---- Agreement with direct evaluation ---------------------------------------

  /** What PFCP asks for: the frame matched against one PDR and handled by that PDR's FAR. */
  function Evaluate(cfg: Config, s: Session, pdr: PDR, marking: Option<Marking>, p: seq<byte>, fib: Option<Fib>): Outcome
    requires |p| >= HEADERS
  {
    match FarByID(s.fars, pdr.farID)
    case None => Outcome(Dropped, p)
    case Some(far) =>
      if HasFORW(far.applyAction) then
        if far.outerIP.None? then Outcome(Pass, p)
        else
          var uplink := pdr.sourceInterface == ACCESS;
          var egress := if uplink then cfg.s5uIfindex else cfg.s1uIfindex;
          var own := if uplink then cfg.s5uLocalIP else cfg.s1uLocalIP;
          var t := Target(egress, own, far.outerIP.value, far.outerTEID, MarkFor(marking, BearerDSCP(cfg.qos, pdr)));
          Outcome(Redirect(egress), Rewritten(p, t, fib))
      else if HasDROP(far.applyAction) && !(pdr.sourceInterface == CORE && far.releasedAccess) then Outcome(Dropped, p)
      else Outcome(Pass, p)
  }

  /** A frame belongs to a PDR when it arrives with the PDR's TEID on the PDR's side. */
  predicate Belongs(cfg: Config, pdr: PDR, p: seq<byte>, ifindex: u32)
    requires |p| >= HEADERS
  {
    && pdr.localTEID != 0
    && pdr.localTEID == TEIDOf(p)
    && ((pdr.sourceInterface == ACCESS && ifindex == cfg.s1uIfindex) ||
        (pdr.sourceInterface == CORE && ifindex == cfg.s5uIfindex))
  }

  /** The PDR of a session that a frame is handled by: the last listed one that it belongs to. */
  ghost predicate Handles(cfg: Config, pdrs: seq<PDR>, i: int, p: seq<byte>, ifindex: u32)
    requires |p| >= HEADERS
  {
    0 <= i < |pdrs| && Belongs(cfg, pdrs[i], p, ifindex) && forall j :: i < j < |pdrs| ==> !Belongs(cfg, pdrs[j], p, ifindex)
  }

  lemma HandlingDecides(cfg: Config, pdrs: seq<PDR>, p: seq<byte>, ifindex: u32)
    requires |p| >= HEADERS
    ensures forall pdr :: Belongs(cfg, pdr, p, ifindex) <==> Covers(cfg, pdr, Key(TEIDOf(p), ifindex))
    ensures forall i :: Handles(cfg, pdrs, i, p, ifindex) ==>
              0 <= i < |pdrs| && Belongs(cfg, pdrs[i], p, ifindex) && Decides(cfg, pdrs, i, Key(TEIDOf(p), ifindex))
  {
  }

  lemma ValueMeansEvaluation(cfg: Config, s: Session, pdr: PDR, rules: Rules, marking: Option<Marking>, p: seq<byte>, ifindex: u32, fib: Option<Fib>)
    requires FastPath(p) && Belongs(cfg, pdr, p, ifindex)
    requires Key(TEIDOf(p), ifindex) in rules && rules[Key(TEIDOf(p), ifindex)] == ValueOf(cfg, s.fars, pdr)
    ensures Process(rules, marking, p, ifindex, fib) == Evaluate(cfg, s, pdr, marking, p, fib)
  {
    hide FastPath, TEIDOf, Rewritten, FarByID, MarkFor;
  }

  /**
   * The compiled map means what the sessions say: over every proper run, each fast-path
   * packet that belongs to a live session gets exactly the verdict and the rewrite that the
   * FAR of the PDR handling it asks for, and a packet of no live PDR is passed untouched.
   */
  lemma XdpRefinesDirectEvaluation(cfg: Config, es: seq<Event>, marking: Option<Marking>, p: seq<byte>, ifindex: u32, fib: Option<Fib>)
    requires Proper(cfg, es) && FastPath(p)
    ensures var d := Run(cfg, es);
            forall id, i :: id in d.live && Handles(cfg, d.live[id].pdrs, i, p, ifindex) ==>
              Process(d.rules, marking, p, ifindex, fib) == Evaluate(cfg, d.live[id], d.live[id].pdrs[i], marking, p, fib)
    ensures var d := Run(cfg, es);
            (forall id, i :: id in d.live && 0 <= i < |d.live[id].pdrs| ==> !Belongs(cfg, d.live[id].pdrs[i], p, ifindex)) ==>
              Process(d.rules, marking, p, ifindex, fib) == Outcome(Pass, p)
  {
    var d := Run(cfg, es);
    hide Run, FastPath, Evaluate, TEIDOf, Rewritten, Belongs, Handles, IsUnion, Process, Proper;
    RunIsUnion(cfg, es);
    forall id, i | id in d.live && Handles(cfg, d.live[id].pdrs, i, p, ifindex)
      ensures Process(d.rules, marking, p, ifindex, fib) == Evaluate(cfg, d.live[id], d.live[id].pdrs[i], marking, p, fib)
    {
      LivePDRDecides(cfg, d, id, i, marking, p, ifindex, fib);
    }
    if forall id, i :: id in d.live && 0 <= i < |d.live[id].pdrs| ==> !Belongs(cfg, d.live[id].pdrs[i], p, ifindex) {
      NoPDRPasses(cfg, d, marking, p, ifindex, fib);
    }
  }

  lemma LivePDRDecides(cfg: Config, d: Dataplane, id: nat, i: int, marking: Option<Marking>, p: seq<byte>, ifindex: u32, fib: Option<Fib>)
    requires IsUnion(cfg, d) && FastPath(p) && id in d.live && Handles(cfg, d.live[id].pdrs, i, p, ifindex)
    ensures Process(d.rules, marking, p, ifindex, fib) == Evaluate(cfg, d.live[id], d.live[id].pdrs[i], marking, p, fib)
  {
    hide FastPath, Evaluate, TEIDOf, Rewritten, ValueOf, IsUnion, Process, Handles, Compile, Decides;
    FastPathHasHeaders(p);
    var s, key := d.live[id], Key(TEIDOf(p), ifindex);
    HandlingDecides(cfg, s.pdrs, p, ifindex);
    CompileIsExact(cfg, s.fars, s.pdrs, key);
    LiveRule(cfg, d, id, key);
    ValueMeansEvaluation(cfg, s, s.pdrs[i], d.rules, marking, p, ifindex, fib);
  }

  lemma LiveRule(cfg: Config, d: Dataplane, id: nat, key: Key)
    requires IsUnion(cfg, d) && id in d.live && key in Compiled(cfg, d.live[id])
    ensures key in d.rules && d.rules[key] == Compiled(cfg, d.live[id])[key]
  {
    hide Compiled;
  }

  lemma NoPDRPasses(cfg: Config, d: Dataplane, marking: Option<Marking>, p: seq<byte>, ifindex: u32, fib: Option<Fib>)
    requires IsUnion(cfg, d) && FastPath(p)
    requires forall id, i :: id in d.live && 0 <= i < |d.live[id].pdrs| ==> !Belongs(cfg, d.live[id].pdrs[i], p, ifindex)
    ensures Process(d.rules, marking, p, ifindex, fib) == Outcome(Pass, p)
  {
    hide FastPath, TEIDOf, Rewritten, Compile, Covers, Belongs;
    FastPathHasHeaders(p);
    var key := Key(TEIDOf(p), ifindex);
    if key in d.rules {
      var id :| id in d.live && key in Compiled(cfg, d.live[id]);
      CompileIsExact(cfg, d.live[id].fars, d.live[id].pdrs, key);
      HandlingDecides(cfg, d.live[id].pdrs, p, ifindex);
    }
  }

  /**
   * What becomes of a packet of a live session, in terms of the packet's own bytes: uplink
   * packets leave on S5/S8-U from its local address and downlink ones on S1-U from its own,
   * towards the peer of the last FAR the PDR names, with the payload kept and the DSCP chosen
   * by the marking configuration.
   */
  lemma ForwardedPacket(cfg: Config, es: seq<Event>, marking: Option<Marking>, p: seq<byte>, ifindex: u32, fib: Option<Fib>, id: nat, i: int, j: int)
    requires Proper(cfg, es) && FastPath(p)
    requires id in Run(cfg, es).live && Handles(cfg, Run(cfg, es).live[id].pdrs, i, p, ifindex)
    requires LastFAR(Run(cfg, es).live[id].fars, j, Run(cfg, es).live[id].pdrs[i].farID)
    requires Run(cfg, es).live[id].fars[j].applyAction / 2 % 2 == 1 && Run(cfg, es).live[id].fars[j].outerIP.Some?
    ensures var s := Run(cfg, es).live[id];
            var o := Process(Run(cfg, es).rules, marking, p, ifindex, fib);
            var uplink, r := s.pdrs[i].sourceInterface == ACCESS, o.frame;
            && o.verdict == Redirect(if uplink then cfg.s5uIfindex else cfg.s1uIfindex)
            && |r| == |p| && FastPath(r)
            && r[26..30] == (if uplink then cfg.s5uLocalIP else cfg.s1uLocalIP)
            && r[30..34] == s.fars[j].outerIP.value
            && TEIDOf(r) == s.fars[j].outerTEID && r[50..] == p[50..]
            && OnesSum(r[14..34]) == 0xFFFF
  {
    hide FastPath, TEIDOf, Rewritten, Run, Proper, Process, OnesSum, MarkFor, BearerDSCP, Covers, FarByID, Belongs;
    var s := Run(cfg, es).live[id];
    FastPathHasHeaders(p);
    XdpRefinesDirectEvaluation(cfg, es, marking, p, ifindex, fib);
    FarByIDIsLast(s.fars, s.pdrs[i].farID);
    var uplink := s.pdrs[i].sourceInterface == ACCESS;
    var t := Target(if uplink then cfg.s5uIfindex else cfg.s1uIfindex, if uplink then cfg.s5uLocalIP else cfg.s1uLocalIP,
                    s.fars[j].outerIP.value, s.fars[j].outerTEID, MarkFor(marking, BearerDSCP(cfg.qos, s.pdrs[i])));
    assert Process(Run(cfg, es).rules, marking, p, ifindex, fib) == Evaluate(cfg, s, s.pdrs[i], marking, p, fib);
    RewrittenIsFastPath(p, t, fib);
    RewrittenHeaderVerifies(p, t, fib);
  }

  /** When a packet of a live session is dropped, and when it is passed untouched to the stack. */
  lemma NotForwardedPacket(cfg: Config, es: seq<Event>, marking: Option<Marking>, p: seq<byte>, ifindex: u32, fib: Option<Fib>, id: nat, i: int)
    requires Proper(cfg, es) && FastPath(p)
    requires id in Run(cfg, es).live && Handles(cfg, Run(cfg, es).live[id].pdrs, i, p, ifindex)
    ensures var s := Run(cfg, es).live[id];
            var o, far := Process(Run(cfg, es).rules, marking, p, ifindex, fib), s.pdrs[i].farID;
            && (!o.verdict.Redirect? ==> o.frame == p)
            && ((forall k :: 0 <= k < |s.fars| ==> s.fars[k].id != far) ==> o.verdict == Dropped)
            && (forall k :: LastFAR(s.fars, k, far) ==>
                  && (o.verdict == Dropped <==> s.fars[k].applyAction / 2 % 2 == 0 && s.fars[k].applyAction % 2 == 1 &&
                                                !(s.pdrs[i].sourceInterface == CORE && s.fars[k].releasedAccess))
                  && (o.verdict.Redirect? <==> s.fars[k].applyAction / 2 % 2 == 1 && s.fars[k].outerIP.Some?))
  {
    hide FastPath, TEIDOf, Rewritten, Run, Proper, Process, MarkFor, BearerDSCP, Belongs, FarByID;
    var s := Run(cfg, es).live[id];
    FastPathHasHeaders(p);
    XdpRefinesDirectEvaluation(cfg, es, marking, p, ifindex, fib);
    FarByIDIsLast(s.fars, s.pdrs[i].farID);
    assert Process(Run(cfg, es).rules, marking, p, ifindex, fib) == Evaluate(cfg, s, s.pdrs[i], marking, p, fib);
  }

  /** Which DSCP a forwarded packet of a bearer gets: its QCI's, the default one, or its own. */
  lemma MarkedDSCP(cfg: Config, pdr: PDR, m: Marking)
    ensures var own := cfg.qos.enabled && cfg.qos.overrideDefault && pdr.qosValid && pdr.qci != 0;
            var dscp := MarkFor(Some(m), BearerDSCP(cfg.qos, pdr));
            && (dscp == None <==> !m.enabled || (!m.qciEnabled && !m.gtpuEnabled))
            && (dscp.Some? && m.qciEnabled && own && pdr.qci in cfg.qos.qciToDSCP ==> dscp.value == cfg.qos.qciToDSCP[pdr.qci] % 64)
            && (dscp.Some? && m.qciEnabled && own && pdr.qci !in cfg.qos.qciToDSCP ==> dscp.value == cfg.qos.defaultDSCP % 64)
            && (dscp.Some? && m.qciEnabled && !own ==> dscp.value == m.qciDefaultDSCP % 64)
            && (dscp.Some? && !m.qciEnabled ==> dscp.value == m.gtpuDSCP % 64)
    ensures MarkFor(None, BearerDSCP(cfg.qos, pdr)) == None
  {
  }

  /**
   * After an update that drops a PDR's key, the program goes on treating its packets as before,
   * through every later run in which no call lists that key.
   */
  lemma DroppedPDRStillHandled(cfg: Config, d: Dataplane, e: Event, later: seq<Event>, marking: Option<Marking>, p: seq<byte>, ifindex: u32, fib: Option<Fib>)
    requires Allowed(d, e) && e.Update? && IsUnion(cfg, d) && KeysDisjoint(cfg, d.live) && FastPath(p)
    requires Key(TEIDOf(p), ifindex) in Compiled(cfg, d.live[e.id]) && Key(TEIDOf(p), ifindex) !in Compiled(cfg, e.s)
    requires Follows(cfg, Step(cfg, d, e), later) && NoneLists(cfg, Step(cfg, d, e), later, Key(TEIDOf(p), ifindex))
    ensures !IsUnion(cfg, Step(cfg, d, e))
    ensures Process(RunFrom(cfg, Step(cfg, d, e), later).rules, marking, p, ifindex, fib) == Process(d.rules, marking, p, ifindex, fib)
  {
    hide FastPath, TEIDOf, Rewritten, Compiled, Step, IsUnion, Follows, RunFrom, NoneLists;
    FastPathHasHeaders(p);
    var key := Key(TEIDOf(p), ifindex);
    StepRules(cfg, d, e);
    DroppedKeyStays(cfg, d, Step(cfg, d, e), e.id, e.s, key);
    LiveRule(cfg, d, e.id, key);
    RuleStaysUntilListed(cfg, Step(cfg, d, e), later, key);
  }
}
