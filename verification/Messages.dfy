/**
 * GTPv2-C messages (internal/gtpv2/message/message.go): the two header variants of
 * section 5 of TS 29.274, whole messages, and piggyback framing.
 */
module Messages {
  import opened Wrappers
  import opened Bytes
  import opened InformationElements

  datatype Header = Header(
    version: byte,
    piggyBacked: bool,
    hasTEID: bool,
    mp: bool,
    messagePriority: byte,
    messageType: byte,
    length: u16,
    teid: u32,
    sequenceNumber: u32)

  datatype Parsed = Parsed(header: Header, body: seq<byte>)

  datatype Message = Message(header: Header, ies: seq<IE>)

  /** One message cut out of a UDP payload: raw is the payload from start to end. */
  datatype Frame = Frame(header: Header, raw: seq<byte>, start: nat, end: nat)

  datatype Error =
    | TooShort
    | VersionNotSupported(version: byte)
    | DeclaredTooSmall
    | InvalidLength(header: Header)
    | BadIEs(error: ParseIEError)
    | IETooLong
    | MessageTooLong
    | EmptyPayload
    | TrailingBytes
    | MissingPiggyback
    | AlreadyPiggybacked

  const HEADER_WITH_TEID: nat := 12
  const HEADER_WITHOUT_TEID: nat := 8

  function HeaderLen(hasTEID: bool): nat {
    if hasTEID then HEADER_WITH_TEID else HEADER_WITHOUT_TEID
  }

  function Bit(flag: bool, weight: byte): byte {
    if flag then weight else 0
  }

  // ---- Header codec -----------------------------------------------------------

  function ParseHeader(b: seq<byte>): Result<Parsed, Error> {
    if |b| < HEADER_WITHOUT_TEID then Err(TooShort)
    else if b[0] / 32 != 2 then Err(VersionNotSupported(b[0] / 32))
    else
      var hasTEID := b[0] / 8 % 2 == 1;
      var minSize := HeaderLen(hasTEID);
      if |b| < minSize then Err(TooShort)
      else
        var mp := hasTEID && b[0] / 4 % 2 == 1;
        var h := Header(2, b[0] / 16 % 2 == 1, hasTEID, mp, if mp then b[11] / 16 else 0,
                        b[1], Get16(b[2..4]),
                        if hasTEID then Get32(b[4..8]) else 0,
                        if hasTEID then Get24(b[8..11]) else Get24(b[4..7]));
        var total := 4 + h.length;
        if total < minSize then Err(DeclaredTooSmall)
        else if total > |b| then Err(InvalidLength(h))
        else Ok(Parsed(h, b[minSize..total]))
  }

  function MarshalHeader(h: Header, bodyLen: nat): (b: seq<byte>)
    ensures |b| == HeaderLen(h.hasTEID)
  {
    var flags := 0x40 + Bit(h.piggyBacked, 0x10) + Bit(h.hasTEID, 0x08) + Bit(h.mp && h.hasTEID, 0x04);
    var prefix := [flags, h.messageType] + Put16((HeaderLen(h.hasTEID) - 4 + bodyLen) % 0x1_0000);
    if h.hasTEID then
      prefix + Put32(h.teid) + Put24(h.sequenceNumber) + [if h.mp then h.messagePriority % 16 * 16 else 0]
    else
      prefix + Put24(h.sequenceNumber) + [0]
  }

  /** The buffer writes of MarshalHeader produce exactly the octets above. */
  method MarshalHeaderBuffer(h: Header, bodyLen: nat) returns (buf: array<byte>)
    ensures fresh(buf)
    ensures buf[..] == MarshalHeader(h, bodyLen)
  {
    var flags: byte := 0x40;
    if h.piggyBacked { flags := flags + 0x10; }
    if h.hasTEID { flags := flags + 0x08; }
    if h.mp && h.hasTEID { flags := flags + 0x04; }
    var declared: u16 := (HeaderLen(h.hasTEID) - 4 + bodyLen) % 0x1_0000;
    buf := new byte[HeaderLen(h.hasTEID)](_ => 0);
    WriteOctets(buf, 0, [flags, h.messageType]);
    WriteOctets(buf, 2, Put16(declared));
    if h.hasTEID {
      WriteOctets(buf, 4, Put32(h.teid));
      WriteOctets(buf, 8, Put24(h.sequenceNumber));
      if h.mp {
        WriteOctets(buf, 11, [h.messagePriority % 16 * 16]);
      }
    } else {
      WriteOctets(buf, 4, Put24(h.sequenceNumber));
    }
  }

  /** Big-endian writes at an offset; everything else keeps its value. */
  method WriteOctets(buf: array<byte>, at: nat, octets: seq<byte>)
    requires at + |octets| <= buf.Length
    modifies buf
    ensures forall k :: 0 <= k < buf.Length ==>
              buf[k] == if at <= k < at + |octets| then octets[k - at] else old(buf[k])
  {
    for i := 0 to |octets|
      invariant forall k :: 0 <= k < buf.Length ==> buf[k] == if at <= k < at + i then octets[k - at] else old(buf[k])
    {
      buf[at + i] := octets[i];
    }
  }

  /** The fields a header variant can carry, with the length of the finished message. */
  function CanonicalHeader(h: Header, total: nat): Header
    requires 4 <= total <= 0x1_0003
  {
    var mp := h.mp && h.hasTEID;
    Header(2, h.piggyBacked, h.hasTEID, mp, if mp then h.messagePriority % 16 else 0,
           h.messageType, total - 4, if h.hasTEID then h.teid else 0, h.sequenceNumber % 0x100_0000)
  }

  /** A header that uses only fields its variant has, within their wire widths. */
  predicate WellFormed(h: Header) {
    && h.version == 2
    && h.sequenceNumber < 0x100_0000
    && (h.mp ==> h.hasTEID && h.messagePriority < 16)
    && (!h.mp ==> h.messagePriority == 0)
    && (!h.hasTEID ==> h.teid == 0)
  }

  /** Decoding undoes header encoding, whatever octets follow the message. */
  lemma HeaderRoundTrip(h: Header, body: seq<byte>, rest: seq<byte>)
    requires HeaderLen(h.hasTEID) + |body| <= 0x1_0003
    ensures var total := HeaderLen(h.hasTEID) + |body|;
            ParseHeader(MarshalHeader(h, |body|) + body + rest) == Ok(Parsed(CanonicalHeader(h, total), body))
  {
    hide ParseHeader, MarshalHeader;
    var b := MarshalHeader(h, |body|) + body + rest;
    if h.hasTEID {
      OctetsWithTEID(h, body, rest);
    } else {
      OctetsWithoutTEID(h, body, rest);
    }
    ParseFromOctets(b, h, body);
  }

  /** The octets of a message, by the fields they encode. */
  predicate Encodes(b: seq<byte>, h: Header, body: seq<byte>) {
    var size, total := HeaderLen(h.hasTEID), HeaderLen(h.hasTEID) + |body|;
    && size <= total <= |b| && total <= 0x1_0003
    && b[0] == 0x40 + Bit(h.piggyBacked, 0x10) + Bit(h.hasTEID, 0x08) + Bit(h.mp && h.hasTEID, 0x04)
    && b[1] == h.messageType && b[2..4] == Put16(total - 4) && b[size..total] == body
    && (if h.hasTEID then
          b[4..8] == Put32(h.teid) && b[8..11] == Put24(h.sequenceNumber) &&
          b[11] == (if h.mp then h.messagePriority % 16 * 16 else 0)
        else b[4..7] == Put24(h.sequenceNumber))
  }

  lemma OctetsWithTEID(h: Header, body: seq<byte>, rest: seq<byte>)
    requires h.hasTEID && HeaderLen(true) + |body| <= 0x1_0003
    ensures Encodes(MarshalHeader(h, |body|) + body + rest, h, body)
  {
    hide Put16, Put24, Put32, Bit;
    var hdr := MarshalHeader(h, |body|);
    var b := hdr + body + rest;
    assert hdr[2..4] == Put16(8 + |body|) && hdr[4..8] == Put32(h.teid) && hdr[8..11] == Put24(h.sequenceNumber);
    assert b[2..4] == hdr[2..4] && b[4..8] == hdr[4..8] && b[8..11] == hdr[8..11] && b[12..12 + |body|] == body;
  }

  lemma OctetsWithoutTEID(h: Header, body: seq<byte>, rest: seq<byte>)
    requires !h.hasTEID && HeaderLen(false) + |body| <= 0x1_0003
    ensures Encodes(MarshalHeader(h, |body|) + body + rest, h, body)
  {
    hide Put16, Put24, Put32, Bit;
    var hdr := MarshalHeader(h, |body|);
    var b := hdr + body + rest;
    assert hdr[2..4] == Put16(4 + |body|) && hdr[4..7] == Put24(h.sequenceNumber);
    assert b[2..4] == hdr[2..4] && b[4..7] == hdr[4..7] && b[8..8 + |body|] == body;
  }

  /**
   * Every octet of a message on the wire: flags and version, type, the length of what follows
   * the first four octets, TEID and sequence number most significant octet first, priority in
   * the upper half of the last header octet, and the body.
   */
  lemma WireLayout(h: Header, body: seq<byte>)
    requires HeaderLen(h.hasTEID) + |body| <= 0x1_0003
    ensures var b, at := MarshalHeader(h, |body|) + body, if h.hasTEID then 8 else 4;
            && |b| == at + 4 + |body| && b[at + 4..] == body
            && b[0] / 32 == 2 && (b[0] / 16 % 2 == 1 <==> h.piggyBacked) && (b[0] / 8 % 2 == 1 <==> h.hasTEID)
            && (b[0] / 4 % 2 == 1 <==> h.mp && h.hasTEID) && b[0] % 4 == 0
            && b[1] == h.messageType
            && (b[2] as int) * 0x100 + b[3] == |b| - 4
            && (h.hasTEID ==> (b[4] as int) * 0x100_0000 + (b[5] as int) * 0x1_0000 + (b[6] as int) * 0x100 + b[7] == h.teid)
            && (b[at] as int) * 0x1_0000 + (b[at + 1] as int) * 0x100 + b[at + 2] == h.sequenceNumber % 0x100_0000
            && b[at + 3] == if h.hasTEID && h.mp then h.messagePriority % 16 * 16 else 0
  {
    hide Put16, Put24, Put32, Bit;
    var b := MarshalHeader(h, |body|) + body;
    FlagOctet(h);
    Octets16(HeaderLen(h.hasTEID) - 4 + |body|);
    Octets24(h.sequenceNumber);
    if h.hasTEID {
      OctetsWithTEID(h, body, []);
      assert b + [] == b;
      Octets32(h.teid);
      assert b[4] == b[4..8][0] && b[5] == b[4..8][1] && b[6] == b[4..8][2] && b[7] == b[4..8][3];
      assert b[8] == b[8..11][0] && b[9] == b[8..11][1] && b[10] == b[8..11][2];
    } else {
      OctetsWithoutTEID(h, body, []);
      assert b + [] == b;
      assert b[4] == b[4..7][0] && b[5] == b[4..7][1] && b[6] == b[4..7][2];
    }
    assert b[2] == b[2..4][0] && b[3] == b[2..4][1];
  }

  lemma FlagOctet(h: Header)
    ensures var v := 0x40 + Bit(h.piggyBacked, 0x10) + Bit(h.hasTEID, 0x08) + Bit(h.mp && h.hasTEID, 0x04);
            && v / 32 == 2 && (v / 16 % 2 == 1 <==> h.piggyBacked) && (v / 8 % 2 == 1 <==> h.hasTEID)
            && (v / 4 % 2 == 1 <==> h.mp && h.hasTEID) && v % 4 == 0
  {
  }

  lemma Octets16(v: u16)
    ensures (Put16(v)[0] as int) * 0x100 + Put16(v)[1] == v
  {
  }

  lemma Octets24(v: u32)
    ensures (Put24(v)[0] as int) * 0x1_0000 + (Put24(v)[1] as int) * 0x100 + Put24(v)[2] == v % 0x100_0000
  {
    Get24Put24(v);
  }

  lemma Octets32(v: u32)
    ensures var o := Put32(v); (o[0] as int) * 0x100_0000 + (o[1] as int) * 0x1_0000 + (o[2] as int) * 0x100 + o[3] == v
  {
    Get32Put32(v);
  }

  /** Exactly which octets are a message, possibly followed by others: version 2, and enough octets for the header and for the declared length. */
  lemma AcceptedIff(b: seq<byte>)
    ensures ParseHeader(b).Ok? <==>
            && |b| >= 8 && b[0] / 32 == 2
            && var header := if b[0] / 8 % 2 == 1 then 12 else 8;
               header <= 4 + (b[2] as int) * 0x100 + b[3] <= |b|
    ensures ParseHeader(b).Ok? ==> var p := ParseHeader(b).value;
              p.header.length == (b[2] as int) * 0x100 + b[3] && |p.body| == p.header.length - if p.header.hasTEID then 8 else 4
  {
  }

  lemma ParseFromOctets(b: seq<byte>, h: Header, body: seq<byte>)
    requires Encodes(b, h, body)
    ensures ParseHeader(b) == Ok(Parsed(CanonicalHeader(h, HeaderLen(h.hasTEID) + |body|), body))
  {
    hide Put16, Put24, Put32, Get16, Get24, Get32;
    Get16Put16(HeaderLen(h.hasTEID) + |body| - 4);
    Get24Put24(h.sequenceNumber);
    Get32Put32(h.teid);
    FlagBits(h);
  }

  lemma FlagBits(h: Header)
    ensures var f := 0x40 + Bit(h.piggyBacked, 0x10) + Bit(h.hasTEID, 0x08) + Bit(h.mp && h.hasTEID, 0x04);
            && f < 0x100 && f / 32 == 2
            && (f / 16 % 2 == 1 <==> h.piggyBacked) && (f / 8 % 2 == 1 <==> h.hasTEID) && (f / 4 % 2 == 1 <==> h.mp && h.hasTEID)
  {
  }

  /** What ParseHeader reads is settled by the octets the message itself declares. */
  lemma ParseHeaderIgnoresRest(m: seq<byte>, rest: seq<byte>)
    requires ParseHeader(m).Ok?
    ensures ParseHeader(m + rest) == ParseHeader(m)
  {
    var b := m + rest;
    assert b[2..4] == m[2..4];
    var h := ParseHeader(m).value.header;
    if h.hasTEID {
      assert b[4..8] == m[4..8] && b[8..11] == m[8..11];
    } else {
      assert b[4..7] == m[4..7];
    }
    assert b[HeaderLen(h.hasTEID)..4 + h.length] == m[HeaderLen(h.hasTEID)..4 + h.length];
  }

  /** A message that is exactly as long as it declares. */
  predicate Exact(m: seq<byte>) {
    ParseHeader(m).Ok? && 4 + ParseHeader(m).value.header.length == |m|
  }

  lemma DeclaredPrefixIsExact(b: seq<byte>)
    requires ParseHeader(b).Ok?
    ensures var total := 4 + ParseHeader(b).value.header.length;
            8 <= total <= |b| && Exact(b[..total]) && ParseHeader(b[..total]) == ParseHeader(b)
  {
    var h := ParseHeader(b).value.header;
    var m := b[..4 + h.length];
    assert b[2..4] == m[2..4];
    if h.hasTEID {
      assert b[4..8] == m[4..8] && b[8..11] == m[8..11];
    } else {
      assert b[4..7] == m[4..7];
    }
    assert b[HeaderLen(h.hasTEID)..4 + h.length] == m[HeaderLen(h.hasTEID)..4 + h.length];
  }

  // ---- Whole messages ---------------------------------------------------------

  function Marshal(h: Header, ies: seq<IE>): Result<seq<byte>, Error> {
    var body := MarshalIEs(ies);
    if !Fits(ies) then Err(IETooLong)
    else if |body| + HeaderLen(h.hasTEID) - 4 > MAX_VALUE then Err(MessageTooLong)
    else Ok(MarshalHeader(h, |body|) + body)
  }

  function Parse(b: seq<byte>): Result<Message, Error> {
    match ParseHeader(b)
    case Err(e) => Err(e)
    case Ok(p) =>
      match ParseIEs(p.body)
      case Err(e) => Err(BadIEs(e))
      case Ok(ies) => Ok(Message(p.header, ies))
  }

  /** Marshal's loop stops at the first over-long element, else appends every encoding. */
  method MarshalLoop(h: Header, ies: seq<IE>) returns (r: Result<seq<byte>, Error>)
    ensures r == Marshal(h, ies)
  {
    var body: seq<byte> := [];
    var i := 0;
    while i < |ies|
      invariant 0 <= i <= |ies|
      invariant Fits(ies[..i])
      invariant MarshalIEs(ies) == body + MarshalIEs(ies[i..])
    {
      if |ies[i].value| > MAX_VALUE {
        return Err(IETooLong);
      }
      assert ies[i..][1..] == ies[i + 1..];
      assert body + (MarshalIE(ies[i]) + MarshalIEs(ies[i + 1..])) == body + MarshalIE(ies[i]) + MarshalIEs(ies[i + 1..]);
      body := body + MarshalIE(ies[i]);
      i := i + 1;
    }
    assert ies[..i] == ies && body + [] == body;
    if |body| + HeaderLen(h.hasTEID) - 4 > MAX_VALUE {
      return Err(MessageTooLong);
    }
    var hdr := MarshalHeaderBuffer(h, |body|);
    return Ok(hdr[..] + body);
  }

  /** Main round trip: whatever Marshal produces, Parse reads back. */
  lemma MessageRoundTrip(h: Header, ies: seq<IE>)
    requires Marshal(h, ies).Ok?
    ensures var b := Marshal(h, ies).value;
            Parse(b) == Ok(Message(CanonicalHeader(h, |b|), CanonicalAll(ies)))
    ensures Exact(Marshal(h, ies).value)
  {
    hide ParseHeader, MarshalHeader, MarshalIEs, ParseIEs;
    var body := MarshalIEs(ies);
    var b := MarshalHeader(h, |body|) + body;
    HeaderRoundTrip(h, body, []);
    assert b + [] == b;
    ParseMarshalIEs(ies);
  }

  /** A well-formed header and element list come back unchanged, with Length filled in. */
  lemma WellFormedRoundTrip(h: Header, ies: seq<IE>)
    requires Marshal(h, ies).Ok? && WellFormed(h)
    requires forall i :: 0 <= i < |ies| ==> ies[i].instance < 16
    ensures Parse(Marshal(h, ies).value) == Ok(Message(h.(length := |Marshal(h, ies).value| - 4), ies))
  {
    hide Parse, ParseHeader, MarshalHeader, MarshalIEs;
    MessageRoundTrip(h, ies);
    assert CanonicalAll(ies) == ies;
  }

  /**
   * Grouped elements of any depth survive a whole message: Marshal's own length checks
   * on the outermost elements rule out overflow of every nested length.
   */
  lemma GroupedMessageRoundTrip(h: Header, ts: seq<Tree>)
    requires Marshal(h, ToIEs(ts)).Ok?
    ensures Parse(Marshal(h, ToIEs(ts)).value).Ok?
    ensures CarryAll(Parse(Marshal(h, ToIEs(ts)).value).value.ies, ts)
  {
    hide ParseHeader, MarshalHeader, CanonicalHeader;
    var body := MarshalIEs(ToIEs(ts));
    MessageRoundTrip(h, ToIEs(ts));
    ParseMarshalIEs(ToIEs(ts));
    MarshalTreesIsMarshalIEs(ts);
    ChildrenRoundTrip(ts);
  }

  /** Converse: anything Parse accepts can be marshalled again, under any sequence number. */
  lemma ParsedCanBeMarshalled(b: seq<byte>, seqNo: u32)
    requires Parse(b).Ok?
    ensures var m := Parse(b).value;
            var r := Marshal(m.header.(sequenceNumber := seqNo), m.ies);
            r.Ok? && |r.value| == 4 + m.header.length
  {
    MarshalParsedIEs(ParseHeader(b).value.body);
  }

  /** cloneCreateBearerResponseForSequence. */
  function CloneForSequence(raw: seq<byte>, seqNo: u32): Result<seq<byte>, Error> {
    match Parse(raw)
    case Err(e) => Err(e)
    case Ok(m) => Marshal(m.header.(sequenceNumber := seqNo), m.ies)
  }

  lemma ParsedHeaderIsCanonical(b: seq<byte>)
    requires ParseHeader(b).Ok?
    ensures var h := ParseHeader(b).value.header;
            CanonicalHeader(h, 4 + h.length) == h && WellFormed(h)
  {
  }

  /** On every message Parse accepts, cloning succeeds and changes only the sequence number. */
  lemma CloneChangesOnlySequence(raw: seq<byte>, seqNo: u32)
    requires Parse(raw).Ok? && seqNo < 0x100_0000
    ensures CloneForSequence(raw, seqNo).Ok?
    ensures var m := Parse(raw).value;
            Parse(CloneForSequence(raw, seqNo).value) == Ok(m.(header := m.header.(sequenceNumber := seqNo)))
  {
    hide ParseHeader, ParseIEs, MarshalIEs;
    var m := Parse(raw).value;
    ParsedCanBeMarshalled(raw, seqNo);
    MarshalParsedIEs(ParseHeader(raw).value.body);
    var h := m.header.(sequenceNumber := seqNo);
    MessageRoundTrip(h, m.ies);
    ParsedHeaderIsCanonical(raw);
    assert CanonicalHeader(h, 4 + h.length) == h;
  }

  /** For a message the gateway itself encoded, the clone is octet for octet what it would have encoded. */
  lemma CloneOfOwnMessage(h: Header, ies: seq<IE>, seqNo: u32)
    requires Marshal(h, ies).Ok?
    ensures CloneForSequence(Marshal(h, ies).value, seqNo) == Marshal(h.(sequenceNumber := seqNo), ies)
  {
    hide ParseHeader;
    MessageRoundTrip(h, ies);
    MarshalOfCanonical(ies);
    var b := Marshal(h, ies).value;
    var c := CanonicalHeader(h, |b|).(sequenceNumber := seqNo);
    assert MarshalHeader(c, |MarshalIEs(ies)|) == MarshalHeader(h.(sequenceNumber := seqNo), |MarshalIEs(ies)|);
  }

  lemma {:induction false} MarshalOfCanonical(ies: seq<IE>)
    ensures MarshalIEs(CanonicalAll(ies)) == MarshalIEs(ies)
  {
    if ies != [] {
      MarshalOfCanonical(ies[1..]);
      assert CanonicalAll(ies)[1..] == CanonicalAll(ies[1..]);
      assert MarshalIE(Canonical(ies[0])) == MarshalIE(ies[0]);
    }
  }

  // ---- Piggyback framing ------------------------------------------------------

  function SplitFrom(b: seq<byte>, offset: nat): Result<seq<Frame>, Error>
    requires offset <= |b|
    decreases |b| - offset
  {
    match ParseHeader(b[offset..])
    case Err(e) => Err(e)
    case Ok(p) =>
      var end := offset + 4 + p.header.length;
      var frame := Frame(p.header, b[offset..end], offset, end);
      if !p.header.piggyBacked then
        if end != |b| then Err(TrailingBytes) else Ok([frame])
      else if end == |b| then Err(MissingPiggyback)
      else
        match SplitFrom(b, end)
        case Err(e) => Err(e)
        case Ok(rest) => Ok([frame] + rest)
  }

  function SplitFrames(b: seq<byte>): Result<seq<Frame>, Error> {
    if b == [] then Err(EmptyPayload) else SplitFrom(b, 0)
  }

  function WithFrames(frames: seq<Frame>, r: Result<seq<Frame>, Error>): Result<seq<Frame>, Error> {
    match r
    case Err(e) => Err(e)
    case Ok(rest) => Ok(frames + rest)
  }

  lemma WithNoFrames(r: Result<seq<Frame>, Error>)
    ensures WithFrames([], r) == r
  {
    if r.Ok? {
      assert [] + r.value == r.value;
    }
  }

  /**
   * The offset loop of SplitFrames. Its second length check is omitted: ParseHeader has
   * already refused a message that declares more octets than remain.
   */
  method SplitFramesLoop(b: seq<byte>) returns (r: Result<seq<Frame>, Error>)
    ensures r == SplitFrames(b)
  {
    hide ParseHeader;
    var frames: seq<Frame> := [];
    var offset := 0;
    if b != [] {
      WithNoFrames(SplitFrom(b, 0));
    }
    while offset < |b|
      invariant 0 <= offset <= |b|
      invariant b == [] ==> frames == []
      invariant b != [] ==> offset < |b| && SplitFrames(b) == WithFrames(frames, SplitFrom(b, offset))
      decreases |b| - offset
    {
      var p := ParseHeader(b[offset..]);
      if p.Err? {
        return Err(p.error);
      }
      var h := p.value.header;
      var end := offset + 4 + h.length;
      DeclaredPrefixIsExact(b[offset..]);
      var frame := Frame(h, b[offset..end], offset, end);
      if !h.piggyBacked {
        if end != |b| {
          return Err(TrailingBytes);
        }
        return Ok(frames + [frame]);
      }
      if end == |b| {
        return Err(MissingPiggyback);
      }
      ghost var rest := SplitFrom(b, end);
      if rest.Ok? {
        assert frames + ([frame] + rest.value) == frames + [frame] + rest.value;
      }
      frames := frames + [frame];
      offset := end;
    }
    return Err(EmptyPayload);
  }

  /**
   * The frames cover b from offset to its end without gap or overlap, each is one
   * exact-length message, and the P flag is set on all of them but the last.
   */
  predicate Tiles(b: seq<byte>, offset: nat, frames: seq<Frame>) {
    && frames != []
    && frames[0].start == offset
    && frames[|frames| - 1].end == |b|
    && (forall i :: 0 <= i < |frames| ==>
         frames[i].start <= frames[i].end <= |b| && frames[i].raw == b[frames[i].start..frames[i].end])
    && (forall i :: 0 <= i < |frames| ==>
         Exact(frames[i].raw) && frames[i].header == ParseHeader(frames[i].raw).value.header)
    && (forall i :: 0 <= i < |frames| - 1 ==> frames[i].end == frames[i + 1].start)
    && (forall i :: 0 <= i < |frames| ==> (frames[i].header.piggyBacked <==> i < |frames| - 1))
  }

  /** SplitFrames succeeds with exactly the tiling of the payload, when there is one. */
  lemma SplitIffTiles(b: seq<byte>, frames: seq<Frame>)
    ensures SplitFrames(b) == Ok(frames) <==> Tiles(b, 0, frames)
  {
    if b == [] {
    } else {
      SplitFromIffTiles(b, 0, frames);
    }
  }

  lemma {:induction false} SplitFromIffTiles(b: seq<byte>, offset: nat, frames: seq<Frame>)
    requires offset <= |b|
    ensures SplitFrom(b, offset) == Ok(frames) <==> Tiles(b, offset, frames)
    decreases |b| - offset
  {
    hide ParseHeader, Tiles, Exact;
    var p := ParseHeader(b[offset..]);
    if p.Err? {
      if Tiles(b, offset, frames) {
        FirstFrameParses(b, offset, frames);
      }
    } else {
      var end := offset + 4 + p.value.header.length;
      DeclaredPrefixIsExact(b[offset..]);
      TilesUnfold(b, offset, frames);
      if p.value.header.piggyBacked && end < |b| && frames != [] {
        SplitFromIffTiles(b, end, frames[1..]);
        assert frames == [frames[0]] + frames[1..];
      } else if !p.value.header.piggyBacked {
        var frame := Frame(p.value.header, b[offset..end], offset, end);
        assert [frame] == frames <==> |frames| == 1 && frames[0] == frame;
      }
    }
  }

  /** A tiling is its first frame, as the header there declares it, and a tiling of what follows. */
  lemma TilesUnfold(b: seq<byte>, offset: nat, frames: seq<Frame>)
    requires offset <= |b| && ParseHeader(b[offset..]).Ok?
    ensures var h := ParseHeader(b[offset..]).value.header;
            var end := offset + 4 + h.length;
            Tiles(b, offset, frames) <==>
            && frames != [] && end <= |b| && frames[0] == Frame(h, b[offset..end], offset, end)
            && (if h.piggyBacked then end < |b| && Tiles(b, end, frames[1..]) else end == |b| && |frames| == 1)
  {
    hide ParseHeader;
    var tail := b[offset..];
    var h := ParseHeader(tail).value.header;
    var end := offset + 4 + h.length;
    DeclaredPrefixIsExact(tail);
    assert tail[..4 + h.length] == b[offset..end];
    if Tiles(b, offset, frames) {
      FirstFrameParses(b, offset, frames);
      if h.piggyBacked {
        TilesTail(b, offset, frames);
        TilesNeedRoom(b, end, frames[1..]);
      }
    } else if frames != [] && frames[0] == Frame(h, b[offset..end], offset, end) {
      if h.piggyBacked && Tiles(b, end, frames[1..]) {
        assert frames == [frames[0]] + frames[1..];
        TilesCons(b, offset, frames[0], frames[1..]);
      }
    }
    if !h.piggyBacked && end == |b| {
      TilesOne(b, Frame(h, b[offset..end], offset, end));
      assert |frames| == 1 ==> frames == [frames[0]];
    }
  }

  lemma TilesOne(b: seq<byte>, frame: Frame)
    requires frame.start <= frame.end == |b| && frame.raw == b[frame.start..frame.end]
    requires Exact(frame.raw) && frame.header == ParseHeader(frame.raw).value.header && !frame.header.piggyBacked
    ensures Tiles(b, frame.start, [frame])
  {
    hide ParseHeader, Exact;
  }

  lemma TilesNeedRoom(b: seq<byte>, offset: nat, frames: seq<Frame>)
    requires Tiles(b, offset, frames)
    ensures offset < |b|
  {
    var m := frames[0].raw;
    assert m == b[frames[0].start..frames[0].end] && Exact(m);
    assert |m| > 0;
  }

  lemma FirstFrameParses(b: seq<byte>, offset: nat, frames: seq<Frame>)
    requires offset <= |b| && Tiles(b, offset, frames)
    ensures ParseHeader(b[offset..]).Ok?
    ensures frames[0].header == ParseHeader(b[offset..]).value.header
    ensures frames[0].end == offset + 4 + frames[0].header.length
  {
    var m := frames[0].raw;
    ParseHeaderIgnoresRest(m, b[frames[0].end..]);
    assert b[offset..] == m + b[frames[0].end..];
  }

  lemma TilesTail(b: seq<byte>, offset: nat, frames: seq<Frame>)
    requires Tiles(b, offset, frames) && frames[0].header.piggyBacked
    ensures Tiles(b, frames[0].end, frames[1..])
  {
    var rest := frames[1..];
    assert rest[|rest| - 1] == frames[|frames| - 1];
    forall i | 0 <= i < |rest| - 1
      ensures rest[i].end == rest[i + 1].start
    {
      assert frames[i + 1].end == frames[i + 2].start;
    }
  }

  lemma TilesCons(b: seq<byte>, offset: nat, frame: Frame, rest: seq<Frame>)
    requires offset == frame.start <= frame.end <= |b| && frame.raw == b[offset..frame.end]
    requires Exact(frame.raw) && frame.header == ParseHeader(frame.raw).value.header
    requires frame.header.piggyBacked && Tiles(b, frame.end, rest)
    ensures Tiles(b, offset, [frame] + rest)
  {
    var frames := [frame] + rest;
    assert frames[|frames| - 1] == rest[|rest| - 1];
  }

  function Flatten(ms: seq<seq<byte>>): seq<byte> {
    if ms == [] then [] else ms[0] + Flatten(ms[1..])
  }

  predicate Flagged(m: seq<byte>) {
    ParseHeader(m).Ok? && ParseHeader(m).value.header.piggyBacked
  }

  /** A sender's view of a piggybacked payload: exact messages, all flagged but the last. */
  predicate Chain(ms: seq<seq<byte>>) {
    && ms != []
    && (forall i :: 0 <= i < |ms| ==> Exact(ms[i]))
    && (forall i :: 0 <= i < |ms| ==> (Flagged(ms[i]) <==> i < |ms| - 1))
  }

  function Raws(frames: seq<Frame>): (r: seq<seq<byte>>)
    ensures |r| == |frames|
    ensures forall i :: 0 <= i < |frames| ==> r[i] == frames[i].raw
  {
    seq(|frames|, i requires 0 <= i < |frames| => frames[i].raw)
  }

  /** Every chain splits back into the messages it was built from. */
  lemma ChainRoundTrip(ms: seq<seq<byte>>)
    requires Chain(ms)
    ensures SplitFrames(Flatten(ms)).Ok?
    ensures Raws(SplitFrames(Flatten(ms)).value) == ms
  {
    SplitChain([], ms);
    assert [] + Flatten(ms) == Flatten(ms);
  }

  lemma {:induction false} SplitChain(prefix: seq<byte>, ms: seq<seq<byte>>)
    requires Chain(ms)
    ensures Flatten(ms) != []
    ensures SplitFrom(prefix + Flatten(ms), |prefix|).Ok?
    ensures Raws(SplitFrom(prefix + Flatten(ms), |prefix|).value) == ms
    decreases |ms|
  {
    hide ParseHeader;
    var b := prefix + Flatten(ms);
    var m := ms[0];
    assert Exact(m);
    ParseHeaderIgnoresRest(m, Flatten(ms[1..]));
    assert b[|prefix|..] == m + Flatten(ms[1..]);
    assert b[|prefix|..|prefix| + |m|] == m;
    if |ms| == 1 {
      assert Flatten(ms[1..]) == [];
    } else {
      assert Flagged(ms[0]);
      forall i | 0 <= i < |ms[1..]|
        ensures Flagged(ms[1..][i]) <==> i < |ms[1..]| - 1
      {
        assert Flagged(ms[i + 1]) <==> i + 1 < |ms| - 1;
      }
      SplitChain(prefix + m, ms[1..]);
      assert prefix + m + Flatten(ms[1..]) == b;
      var frames := SplitFrom(b, |prefix|).value;
      assert Raws(frames) == ms;
    }
  }

  /** MarshalPiggybacked: the primary message with its P flag set, then the piggyback. */
  function MarshalPiggybacked(primary: seq<byte>, piggyback: seq<byte>): Result<seq<byte>, Error> {
    if primary == [] || piggyback == [] then Err(EmptyPayload)
    else
      match ParseHeader(primary)
      case Err(e) => Err(e)
      case Ok(p) =>
        if p.header.piggyBacked then Err(AlreadyPiggybacked)
        else
          match ParseHeader(piggyback)
          case Err(e) => Err(e)
          case Ok(q) =>
            if q.header.piggyBacked then Err(AlreadyPiggybacked)
            else Ok(SetPFlag(primary) + piggyback)
  }

  /** Two messages can go out together exactly when both are messages and neither is flagged already; only one bit is set. */
  lemma PiggybackIff(primary: seq<byte>, piggyback: seq<byte>)
    ensures MarshalPiggybacked(primary, piggyback).Ok? <==>
            ParseHeader(primary).Ok? && ParseHeader(piggyback).Ok? && !Flagged(primary) && !Flagged(piggyback)
    ensures MarshalPiggybacked(primary, piggyback).Ok? ==>
            var out := MarshalPiggybacked(primary, piggyback).value;
            && |out| == |primary| + |piggyback| && out[0] == primary[0] as int + 16
            && out[1..|primary|] == primary[1..] && out[|primary|..] == piggyback
    ensures primary == [] || piggyback == [] ==> MarshalPiggybacked(primary, piggyback) == Err(EmptyPayload)
    ensures piggyback != [] && Flagged(primary) ==> MarshalPiggybacked(primary, piggyback) == Err(AlreadyPiggybacked)
  {
  }

  function SetPFlag(m: seq<byte>): seq<byte>
    requires ParseHeader(m).Ok? && !ParseHeader(m).value.header.piggyBacked
  {
    m[0 := m[0] + 0x10]
  }

  lemma SetPFlagChangesOnlyP(m: seq<byte>)
    requires ParseHeader(m).Ok? && !ParseHeader(m).value.header.piggyBacked
    ensures ParseHeader(SetPFlag(m)).Ok?
    ensures ParseHeader(SetPFlag(m)).value.header == ParseHeader(m).value.header.(piggyBacked := true)
  {
    var f := SetPFlag(m);
    assert f[2..4] == m[2..4];
    if ParseHeader(m).value.header.hasTEID {
      assert f[4..8] == m[4..8] && f[8..11] == m[8..11];
    } else {
      assert f[4..7] == m[4..7];
    }
  }

  /**
   * A successful MarshalPiggybacked splits back into its two messages exactly when both
   * were as long as they declare; extra octets after either one break the framing.
   */
  lemma PiggybackSplitsIffExact(primary: seq<byte>, piggyback: seq<byte>)
    requires MarshalPiggybacked(primary, piggyback).Ok?
    ensures var r := SplitFrames(MarshalPiggybacked(primary, piggyback).value);
            (r.Ok? && Raws(r.value) == [SetPFlag(primary), piggyback])
            <==> Exact(primary) && Exact(piggyback)
  {
    var out := MarshalPiggybacked(primary, piggyback).value;
    var flagged := SetPFlag(primary);
    SetPFlagChangesOnlyP(primary);
    if Exact(primary) && Exact(piggyback) {
      var ms := [flagged, piggyback];
      assert Flatten(ms[1..][1..]) == [] && Flatten(ms[1..]) == piggyback + [] == piggyback;
      assert Flatten(ms) == flagged + Flatten(ms[1..]) == out;
      assert Exact(ms[0]) && Exact(ms[1]) && Flagged(ms[0]) && !Flagged(ms[1]);
      ChainRoundTrip(ms);
    }
    var r := SplitFrames(out);
    if r.Ok? && Raws(r.value) == [flagged, piggyback] {
      SplitIffTiles(out, r.value);
      assert r.value[0].raw == flagged && r.value[1].raw == piggyback;
    }
  }

  // ---- Request and response types ---------------------------------------------

  /** ResponseTypeFor, Table 6.1-1 of TS 29.274. */
  function ResponseTypeFor(reqType: byte): Option<byte> {
    match reqType
    case 1 => Some(2)
    case 32 => Some(33)
    case 34 => Some(35)
    case 36 => Some(37)
    case 95 => Some(96)
    case 97 => Some(98)
    case 99 => Some(100)
    case 170 => Some(171)
    case 176 => Some(177)
    case _ => None
  }

  /** RequestTypeForResponse. */
  function RequestTypeForResponse(respType: byte): Option<byte> {
    match respType
    case 2 => Some(1)
    case 33 => Some(32)
    case 35 => Some(34)
    case 37 => Some(36)
    case 96 => Some(95)
    case 98 => Some(97)
    case 100 => Some(99)
    case 171 => Some(170)
    case 177 => Some(176)
    case _ => None
  }

  /** A response type is its request type plus one, for the nine procedures known. */
  lemma ResponseIsNext(reqType: byte, respType: byte)
    ensures ResponseTypeFor(reqType) == Some(respType) <==>
            respType == reqType as int + 1 && reqType in {1, 32, 34, 36, 95, 97, 99, 170, 176}
  {
  }

  /** The two tables are inverse to each other. */
  lemma TypesAreInverse(reqType: byte, respType: byte)
    ensures ResponseTypeFor(reqType) == Some(respType) <==> RequestTypeForResponse(respType) == Some(reqType)
  {
  }
}
