/** Subscriber, access point and network identifier encodings (internal/gtpv2/ie/ie.go). */
module Identifiers {
  import opened Bytes

  // ---- TBCD: two digits an octet, low nibble first, 0xF filler ------------------

  type Ascii = seq<bv8>

  const ZERO: bv8 := 0x30

  predicate IsDigits(s: Ascii) {
    forall i :: 0 <= i < |s| ==> 0x30 <= s[i] <= 0x39
  }

  function Pair(lo: bv8, hi: bv8): bv8 {
    (lo - ZERO) | ((hi - ZERO) << 4)
  }

  function EncodeTBCD(s: Ascii): (r: seq<bv8>)
    ensures |r| == (|s| + 1) / 2
  {
    if |s| == 0 then []
    else if |s| == 1 then [(s[0] - ZERO) | 0xF0]
    else [Pair(s[0], s[1])] + EncodeTBCD(s[2..])
  }

  /** The digits decoded from one octet: the high nibble is dropped when it is the filler. */
  function OctetDigits(v: bv8): Ascii {
    var lo, hi := v & 0x0F, (v >> 4) & 0x0F;
    [ZERO + lo] + (if hi != 0x0F then [ZERO + hi] else [])
  }

  function DecodeTBCD(b: seq<bv8>): Ascii {
    if b == [] then [] else OctetDigits(b[0]) + DecodeTBCD(b[1..])
  }

  lemma DigitsOfPair(lo: bv8, hi: bv8)
    requires 0x30 <= lo <= 0x39 && 0x30 <= hi <= 0x39
    ensures OctetDigits(Pair(lo, hi)) == [lo, hi]
  {
  }

  lemma DigitsOfLast(lo: bv8)
    requires 0x30 <= lo <= 0x39
    ensures OctetDigits((lo - ZERO) | 0xF0) == [lo]
  {
  }

  /** Digit strings of every length, odd or even, survive TBCD. */
  lemma {:induction false} TBCDRoundTrip(s: Ascii)
    requires IsDigits(s)
    ensures DecodeTBCD(EncodeTBCD(s)) == s
  {
    hide OctetDigits, Pair;
    if |s| == 0 {
    } else if |s| == 1 {
      DigitsOfLast(s[0]);
    } else {
      DigitsOfPair(s[0], s[1]);
      TBCDRoundTrip(s[2..]);
      assert EncodeTBCD(s)[1..] == EncodeTBCD(s[2..]);
      assert s == [s[0], s[1]] + s[2..];
    }
  }

  lemma {:induction false} EncodeTBCDAt(s: Ascii, j: nat)
    requires j < (|s| + 1) / 2
    ensures EncodeTBCD(s)[j] == if 2 * j + 1 < |s| then Pair(s[2 * j], s[2 * j + 1]) else (s[2 * j] - ZERO) | 0xF0
  {
    if j > 0 {
      EncodeTBCDAt(s[2..], j - 1);
    }
  }

  /** Each octet holds two digits, the earlier one in its lower half; an odd last digit is filled up with ones. */
  lemma TBCDNibbles(s: Ascii, j: nat)
    requires IsDigits(s) && 2 * j < |s|
    ensures j < |EncodeTBCD(s)| && EncodeTBCD(s)[j] & 0x0F == s[2 * j] - 0x30
    ensures EncodeTBCD(s)[j] >> 4 == if 2 * j + 1 < |s| then s[2 * j + 1] - 0x30 else 0x0F
  {
    EncodeTBCDAt(s, j);
    if 2 * j + 1 < |s| {
      PairNibbles(s[2 * j], s[2 * j + 1]);
    } else {
      LastNibbles(s[2 * j]);
    }
  }

  /** All ten digits, as they go out. */
  lemma TenDigits()
    ensures IsDigits([0x30, 0x31, 0x32, 0x33, 0x34, 0x35, 0x36, 0x37, 0x38, 0x39])
    ensures EncodeTBCD([0x30, 0x31, 0x32, 0x33, 0x34, 0x35, 0x36, 0x37, 0x38, 0x39]) == [0x10, 0x32, 0x54, 0x76, 0x98]
  {
    var s := [0x30, 0x31, 0x32, 0x33, 0x34, 0x35, 0x36, 0x37, 0x38, 0x39];
    forall j: nat | j < 5 ensures EncodeTBCD(s)[j] == Pair(s[2 * j], s[2 * j + 1]) {
      EncodeTBCDAt(s, j);
    }
  }

  lemma PairNibbles(lo: bv8, hi: bv8)
    requires 0x30 <= lo <= 0x39 && 0x30 <= hi <= 0x39
    ensures Pair(lo, hi) & 0x0F == lo - 0x30 && Pair(lo, hi) >> 4 == hi - 0x30
  {
  }

  lemma LastNibbles(lo: bv8)
    requires 0x30 <= lo <= 0x39
    ensures ((lo - ZERO) | 0xF0) & 0x0F == lo - 0x30 && ((lo - ZERO) | 0xF0) >> 4 == 0x0F
  {
  }

  /** The nibble-by-nibble loop of encodeTBCD fills its buffer with the encoding. */
  method EncodeTBCDLoop(digits: Ascii) returns (out: array<bv8>)
    ensures fresh(out)
    ensures out[..] == EncodeTBCD(digits)
  {
    out := new bv8[(|digits| + 1) / 2](_ => 0);
    var i := 0;
    while i < |digits|
      invariant 0 <= i <= |digits|
      invariant forall j :: 0 <= j < i / 2 ==> out[j] == Pair(digits[2 * j], digits[2 * j + 1])
      invariant i % 2 == 1 ==> out[i / 2] == digits[i - 1] - ZERO
    {
      var d := digits[i] - ZERO;
      if i % 2 == 0 {
        out[i / 2] := d;
      } else {
        out[i / 2] := out[i / 2] | (d << 4);
      }
      i := i + 1;
    }
    if |digits| % 2 != 0 {
      out[out.Length - 1] := out[out.Length - 1] | 0xF0;
    }
    forall j | 0 <= j < out.Length
      ensures out[j] == EncodeTBCD(digits)[j]
    {
      EncodeTBCDAt(digits, j);
    }
  }

  // ---- APN: dot-separated labels, each preceded by its length octet -------------

  type Text = seq<byte>

  const DOT: byte := 0x2E

  function Labels(s: Text): (ls: seq<Text>)
    ensures ls != []
  {
    if s == [] then [[]]
    else
      var ls := Labels(s[1..]);
      if s[0] == DOT then [[]] + ls else [[s[0]] + ls[0]] + ls[1..]
  }

  function EncodeLabels(ls: seq<Text>): Text {
    if ls == [] then [] else [|ls[0]| % 0x100] + ls[0] + EncodeLabels(ls[1..])
  }

  function EncodeAPN(apn: Text): Text {
    if apn == [] then [0] else EncodeLabels(Labels(apn))
  }

  /** The decoding loop from a given point: b is unread, out is decoded so far. */
  function DecodeFrom(b: Text, out: Text): Text
    decreases |b|
  {
    if b == [] || 1 + b[0] > |b| then out
    else DecodeFrom(b[1 + b[0]..], out + (if out == [] then [] else [DOT]) + b[1..1 + b[0]])
  }

  function DecodeAPN(b: Text): Text {
    DecodeFrom(b, [])
  }

  function Join(ls: seq<Text>): Text
    requires ls != []
  {
    if |ls| == 1 then ls[0] else ls[0] + [DOT] + Join(ls[1..])
  }

  predicate NoDots(ls: seq<Text>) {
    forall i :: 0 <= i < |ls| ==> DOT !in ls[i]
  }

  predicate ShortLabels(ls: seq<Text>) {
    forall i :: 0 <= i < |ls| ==> |ls[i]| <= 0xFF
  }

  lemma {:induction false} LabelsJoin(s: Text)
    ensures Join(Labels(s)) == s && NoDots(Labels(s))
    ensures |EncodeLabels(Labels(s))| == |s| + 1
  {
    if s == [] {
      assert EncodeLabels([[]]) == [0];
    } else {
      var rest := s[1..];
      var ls := Labels(rest);
      LabelsJoin(rest);
      if s[0] == DOT {
        assert Labels(s)[1..] == ls;
        assert Join(Labels(s)) == [] + [DOT] + Join(ls);
      } else {
        assert Labels(s)[1..] == ls[1..];
        assert Join(Labels(s)) == [s[0]] + Join(ls);
      }
    }
  }

  lemma {:induction false} DecodeExtends(b: Text, out: Text)
    ensures out <= DecodeFrom(b, out)
    ensures out != [] ==> DecodeFrom(b, out) == out || DecodeFrom(b, out)[|out|] == DOT
    ensures |DecodeFrom(b, out)| <= if out == [] && b != [] then |b| - 1 else |out| + |b|
    decreases |b|
  {
    if b == [] || 1 + b[0] > |b| {
    } else {
      DecodeExtends(b[1 + b[0]..], out + (if out == [] then [] else [DOT]) + b[1..1 + b[0]]);
    }
  }

  lemma StepOverLabel(ls: seq<Text>, n: nat, out: Text)
    requires ls != [] && n == |ls[0]| % 0x100
    ensures DecodeFrom(EncodeLabels(ls), out) ==
            DecodeFrom(ls[0][n..] + EncodeLabels(ls[1..]), out + (if out == [] then [] else [DOT]) + ls[0][..n])
  {
    var b := EncodeLabels(ls);
    assert b[0] == n && b[1..1 + n] == ls[0][..n];
    assert b[1 + n..] == ls[0][n..] + EncodeLabels(ls[1..]);
  }

  lemma StepOverShort(ls: seq<Text>, out: Text)
    requires ls != [] && |ls[0]| <= 0xFF
    ensures DecodeFrom(EncodeLabels(ls), out) ==
            DecodeFrom(EncodeLabels(ls[1..]), out + (if out == [] then [] else [DOT]) + ls[0])
    ensures |ls| == 1 ==> DecodeFrom(EncodeLabels(ls), out) == out + (if out == [] then [] else [DOT]) + ls[0]
  {
    StepOverLabel(ls, |ls[0]|, out);
    assert ls[0][..|ls[0]|] == ls[0] && ls[0][|ls[0]|..] + EncodeLabels(ls[1..]) == EncodeLabels(ls[1..]);
  }

  lemma ShortFromSecond(ls: seq<Text>)
    requires ls != [] && |ls[0]| <= 0xFF
    ensures ShortLabels(ls) <==> ShortLabels(ls[1..])
    ensures NoDots(ls) ==> NoDots(ls[1..])
  {
    assert forall i :: 1 <= i < |ls| ==> ls[i] == ls[1..][i - 1];
  }

  /** A label of more than 255 octets leaves the decoder reading a text octet as a length. */
  lemma OverlongLabelGarbles(ls: seq<Text>, n: nat, out: Text, expected: Text)
    requires ls != [] && NoDots(ls) && n < |ls[0]| && out != []
    requires out <= expected && |expected| > |out| && expected[|out|] == ls[0][n]
    ensures DecodeFrom(ls[0][n..] + EncodeLabels(ls[1..]), out) != expected
  {
    DecodeExtends(ls[0][n..] + EncodeLabels(ls[1..]), out);
    assert ls[0][n] in ls[0];
  }

  lemma LongFirstLabel(ls: seq<Text>, out: Text)
    requires ls != [] && out != [] && NoDots(ls) && |ls[0]| > 0xFF
    ensures DecodeFrom(EncodeLabels(ls), out) != out + [DOT] + Join(ls)
    ensures !ShortLabels(ls)
  {
    hide DecodeFrom, EncodeLabels;
    var n := |ls[0]| % 0x100;
    var out' := out + [DOT] + ls[0][..n];
    StepOverLabel(ls, n, out);
    var expected := out + [DOT] + Join(ls);
    assert Join(ls)[n] == ls[0][n] && Join(ls)[..n] == ls[0][..n];
    assert out' == expected[..|out'|];
    OverlongLabelGarbles(ls, n, out', expected);
  }

  /** After a nonempty decoded part, the labels come back exactly when none overflows its length octet. */
  lemma {:induction false} DecodeLabelsIff(ls: seq<Text>, out: Text)
    requires ls != [] && out != [] && NoDots(ls)
    ensures DecodeFrom(EncodeLabels(ls), out) == out + [DOT] + Join(ls) <==> ShortLabels(ls)
    decreases |ls|
  {
    hide DecodeFrom, EncodeLabels;
    if |ls[0]| > 0xFF {
      LongFirstLabel(ls, out);
    } else {
      StepOverShort(ls, out);
      if |ls| > 1 {
        ShortFromSecond(ls);
        DecodeLabelsIff(ls[1..], out + [DOT] + ls[0]);
        assert out + [DOT] + ls[0] + [DOT] + Join(ls[1..]) == out + [DOT] + Join(ls);
      }
    }
  }

  predicate Encodable(ls: seq<Text>)
    requires ls != []
  {
    ls[0] != [] && ShortLabels(ls)
  }

  /**
   * APN round trip, both ways: an access point name survives exactly when it is empty, or
   * its first label is nonempty and no label exceeds 255 octets.
   */
  lemma APNRoundTripIff(apn: Text)
    ensures DecodeAPN(EncodeAPN(apn)) == apn <==> apn == [] || Encodable(Labels(apn))
  {
    if apn != [] {
      LabelsJoin(apn);
      assert DecodeAPN(EncodeAPN(apn)) == DecodeFrom(EncodeLabels(Labels(apn)), []);
      if |Labels(apn)[0]| % 0x100 == 0 {
        ZeroLengthFirst(apn, Labels(apn));
      } else {
        FirstLabelDecodes(apn, Labels(apn));
      }
    } else {
      EmptyAPN();
    }
  }

  lemma EmptyAPN()
    ensures DecodeAPN(EncodeAPN([])) == []
  {
    assert DecodeFrom([0], []) == DecodeFrom([0][1..], [] + [] + [0][1..1]);
    assert [0][1..] == [] && [] + [] + [0][1..1] == [];
  }

  /** A leading length octet of zero makes the decoder lose at least one octet. */
  lemma ZeroLengthFirst(apn: Text, ls: seq<Text>)
    requires ls != [] && |EncodeLabels(ls)| == |apn| + 1 && |apn| > 0 && |ls[0]| % 0x100 == 0
    ensures DecodeFrom(EncodeLabels(ls), []) != apn && !Encodable(ls)
  {
    hide DecodeFrom, EncodeLabels;
    StartsWithZero(ls);
    StepOverZero(EncodeLabels(ls));
    DecodeExtends(EncodeLabels(ls)[1..], []);
  }

  lemma StartsWithZero(ls: seq<Text>)
    requires ls != [] && |ls[0]| % 0x100 == 0
    ensures EncodeLabels(ls) != [] && EncodeLabels(ls)[0] == 0
  {
  }

  lemma StepOverZero(b: Text)
    requires b != [] && b[0] == 0
    ensures DecodeFrom(b, []) == DecodeFrom(b[1..], [])
  {
    assert [] + [] + b[1..1] == [];
  }

  lemma FirstLabelDecodes(apn: Text, ls: seq<Text>)
    requires ls != [] && NoDots(ls) && apn == Join(ls) && |ls[0]| % 0x100 != 0
    ensures DecodeFrom(EncodeLabels(ls), []) == apn <==> Encodable(ls)
  {
    hide DecodeFrom, EncodeLabels;
    var piece, n := ls[0], |ls[0]| % 0x100;
    if |piece| > 0xFF {
      StepOverLabel(ls, n, []);
      assert [] + [] + piece[..n] == piece[..n];
      assert apn[|piece[..n]|] == piece[n];
      OverlongLabelGarbles(ls, n, piece[..n], apn);
    } else {
      StepOverShort(ls, []);
      assert [] + [] + piece == piece;
      if |ls| > 1 {
        ShortFromSecond(ls);
        DecodeLabelsIff(ls[1..], piece);
      } else {
        assert ShortLabels(ls);
      }
    }
  }

  lemma {:induction false} LabelsAtDot(piece: Text, rest: Text)
    requires DOT !in piece
    ensures Labels(piece + [DOT] + rest) == [piece] + Labels(rest)
    ensures Labels(piece) == [piece]
  {
    if piece == [] {
      assert piece + [DOT] + rest == [DOT] + rest;
    } else {
      LabelsAtDot(piece[1..], rest);
      assert piece[0] in piece && [piece[0]] + piece[1..] == piece;
      assert (piece + [DOT] + rest)[1..] == piece[1..] + [DOT] + rest;
      assert ([piece[1..]] + Labels(rest))[1..] == Labels(rest);
    }
  }

  lemma EncodeFirst(piece: Text, ls: seq<Text>)
    ensures EncodeLabels([piece] + ls) == [|piece| % 0x100] + piece + EncodeLabels(ls)
  {
    assert ([piece] + ls)[1..] == ls;
  }

  lemma EncodeNone()
    ensures EncodeLabels([]) == []
  {
  }

  /** What remains to be encoded when the next label begins at start. */
  function RestFrom(apn: Text, start: nat): Text {
    if start > |apn| then [] else EncodeLabels(Labels(apn[start..]))
  }

  predicate LabelSpan(apn: Text, start: nat, i: nat) {
    start <= i <= |apn| && forall j :: start <= j < i ==> apn[j] != DOT
  }

  lemma NextLabel(apn: Text, start: nat, i: nat)
    requires LabelSpan(apn, start, i) && (i == |apn| || apn[i] == DOT)
    ensures RestFrom(apn, start) == [(i - start) % 0x100] + apn[start..i] + RestFrom(apn, i + 1)
  {
    hide Labels, EncodeLabels;
    var piece := apn[start..i];
    var rest := if i == |apn| then [] else apn[i + 1..];
    LabelsAtDot(piece, rest);
    if i == |apn| {
      EncodeFirst(piece, []);
      assert apn[start..] == piece && [piece] + [] == [piece];
      EncodeNone();
    } else {
      EncodeFirst(piece, Labels(rest));
      assert apn[start..] == piece + [DOT] + rest;
    }
  }

  /** The scanning loop of encodeAPN. */
  method EncodeAPNLoop(apn: Text) returns (out: Text)
    ensures out == EncodeAPN(apn)
  {
    hide RestFrom, EncodeAPN, EncodeLabels, Labels;
    EncodeFromStart(apn);
    if apn == [] {
      return [0];
    }
    out := [];
    var start, i := 0, 0;
    while i <= |apn|
      invariant 0 <= start <= i <= |apn| + 1
      invariant if i <= |apn| then LabelSpan(apn, start, i) else start == i
      invariant out + RestFrom(apn, start) == EncodeAPN(apn)
    {
      if i == |apn| || apn[i] == DOT {
        NextLabel(apn, start, i);
        out := out + ([(i - start) % 0x100] + apn[start..i]);
        start := i + 1;
      }
      i := i + 1;
    }
    RestPastEnd(apn, start);
  }

  lemma EncodeFromStart(apn: Text)
    ensures apn == [] ==> EncodeAPN(apn) == [0]
    ensures apn != [] ==> RestFrom(apn, 0) == EncodeAPN(apn)
  {
    assert apn[0..] == apn;
  }

  lemma RestPastEnd(apn: Text, start: nat)
    requires start > |apn|
    ensures RestFrom(apn, start) == []
  {
  }

  /** The reading loop of decodeAPN. */
  method DecodeAPNLoop(b: Text) returns (out: Text)
    ensures out == DecodeAPN(b)
  {
    out := [];
    var i := 0;
    while i < |b|
      invariant 0 <= i <= |b|
      invariant DecodeAPN(b) == DecodeFrom(b[i..], out)
    {
      var n := b[i];
      if i + 1 + n > |b| {
        return;
      }
      assert b[i..][1..1 + n] == b[i + 1..i + 1 + n] && b[i..][1 + n..] == b[i + 1 + n..];
      out := out + (if out == [] then [] else [DOT]) + b[i + 1..i + 1 + n];
      i := i + 1 + n;
    }
  }

  /** Label by label: its length octet, its characters, and then what follows its dot. */
  lemma APNOctets(piece: Text, rest: Text)
    requires DOT !in piece
    ensures EncodeAPN(piece) == [|piece| % 0x100] + piece
    ensures EncodeAPN(piece + [DOT] + rest) == [|piece| % 0x100] + piece + EncodeAPN(rest)
  {
    LabelsAtDot(piece, rest);
    EncodeFirst(piece, Labels(rest));
    EncodeFirst(piece, []);
    assert EncodeLabels([[]]) == [0];
    EncodeNone();
    assert [piece] + [] == [piece];
  }

  // ---- PLMN: MCC and MNC in three octets ------------------------------------------

  function Digit(c: byte): (d: byte)
    ensures d <= 9
  {
    if 0x30 <= c <= 0x39 then c - 0x30 else 0
  }

  function PadRight(s: Text, n: nat): (r: Text)
    ensures |r| >= n
    decreases n - |s|
  {
    if |s| < n then PadRight(s + [0x30], n) else s
  }

  function PadLeft(s: Text, n: nat): (r: Text)
    ensures |r| >= n
    decreases n - |s|
  {
    if |s| < n then PadLeft([0x30] + s, n) else s
  }

  function EncodePLMN(mcc: Text, mnc: Text): (b: Text)
    ensures |b| == 3
  {
    var c, n := PadRight(mcc, 3), PadLeft(mnc, 2);
    [Digit(c[0]) + Digit(c[1]) * 16,
     Digit(c[2]) + (if |n| == 2 then 0xF0 else Digit(n[2]) * 16),
     Digit(n[0]) + Digit(n[1]) * 16]
  }

  /** A nibble printed in decimal: two characters from ten on. */
  function Decimal(d: byte): Text
    requires d < 16
  {
    if d < 10 then [0x30 + d] else [0x31, 0x30 + d - 10]
  }

  function DecodePLMN(b: Text): (Text, Text)
    requires |b| >= 3
  {
    var d3 := b[1] / 16;
    (Decimal(b[0] % 16) + Decimal(b[0] / 16) + Decimal(b[1] % 16),
     Decimal(b[2] % 16) + Decimal(b[2] / 16) + (if d3 == 0x0F then [] else Decimal(d3)))
  }

  /** Where the digits of a network go: two to an octet, lower half first, the third MNC digit or the filler above the third MCC digit. */
  lemma PLMNNibbles(mcc: Text, mnc: Text)
    requires DecimalText(mcc) && DecimalText(mnc) && |mcc| == 3 && 2 <= |mnc| <= 3
    ensures var b := EncodePLMN(mcc, mnc);
            && b[0] % 16 == mcc[0] - 0x30 && b[0] / 16 == mcc[1] - 0x30 && b[1] % 16 == mcc[2] - 0x30
            && b[1] / 16 == (if |mnc| == 2 then 15 else mnc[2] - 0x30)
            && b[2] % 16 == mnc[0] - 0x30 && b[2] / 16 == mnc[1] - 0x30
  {
    assert PadRight(mcc, 3) == mcc && PadLeft(mnc, 2) == mnc;
  }

  /** Short codes are filled up with zeros, the MCC on the right and the MNC on the left, and what is no digit counts as zero. */
  lemma PLMNFilling(mcc: Text, mnc: Text, i: nat)
    ensures |mcc| < 3 ==> EncodePLMN(mcc, mnc) == EncodePLMN(mcc + [0x30], mnc)
    ensures |mnc| < 2 ==> EncodePLMN(mcc, mnc) == EncodePLMN(mcc, [0x30] + mnc)
    ensures |mcc| >= 3 && i < |mcc| && !(0x30 <= mcc[i] <= 0x39) ==> EncodePLMN(mcc, mnc) == EncodePLMN(mcc[i := 0x30], mnc)
    ensures |mnc| >= 2 && i < |mnc| && !(0x30 <= mnc[i] <= 0x39) ==> EncodePLMN(mcc, mnc) == EncodePLMN(mcc, mnc[i := 0x30])
  {
  }

  /** Nibbles that are no digits are printed as the numbers they are. */
  lemma PLMNBeyondNine()
    ensures DecodePLMN([0xBA, 0xFC, 0x10]) == ([0x31, 0x30, 0x31, 0x31, 0x31, 0x32], [0x30, 0x31])
  {
    assert Decimal(10) == [0x31, 0x30] && Decimal(11) == [0x31, 0x31] && Decimal(12) == [0x31, 0x32];
    assert Decimal(0) == [0x30] && Decimal(1) == [0x31];
    var r := DecodePLMN([0xBA, 0xFC, 0x10]);
    assert r.0 == [0x31, 0x30, 0x31, 0x31, 0x31, 0x32];
    assert r.1 == [0x30, 0x31];
  }

  predicate DecimalText(s: Text) {
    forall i :: 0 <= i < |s| ==> 0x30 <= s[i] <= 0x39
  }

  /** Whatever was encoded, digits come back: three for the MCC, and two or three for the MNC. */
  lemma PLMNDecodesToDigits(mcc: Text, mnc: Text)
    ensures var r := DecodePLMN(EncodePLMN(mcc, mnc));
            DecimalText(r.0) && DecimalText(r.1) && |r.0| == 3 && 2 <= |r.1| <= 3
  {
    hide PadRight, PadLeft, Digit;
  }

  lemma PLMNRoundTrip(mcc: Text, mnc: Text)
    requires DecimalText(mcc) && DecimalText(mnc) && |mcc| == 3 && 2 <= |mnc| <= 3
    ensures DecodePLMN(EncodePLMN(mcc, mnc)) == (mcc, mnc)
  {
    hide EncodePLMN;
    PLMNNibbles(mcc, mnc);
    var r := DecodePLMN(EncodePLMN(mcc, mnc));
    assert r.0 == [mcc[0], mcc[1], mcc[2]] == mcc;
    assert r.1 == (if |mnc| == 2 then [mnc[0], mnc[1]] else [mnc[0], mnc[1], mnc[2]]) == mnc;
  }

  /** PLMN round trip, both ways: three MCC digits and two or three MNC digits, nothing else. */
  lemma PLMNRoundTripIff(mcc: Text, mnc: Text)
    ensures DecodePLMN(EncodePLMN(mcc, mnc)) == (mcc, mnc)
            <==> DecimalText(mcc) && DecimalText(mnc) && |mcc| == 3 && (|mnc| == 2 || |mnc| == 3)
  {
    hide DecodePLMN, EncodePLMN;
    PLMNDecodesToDigits(mcc, mnc);
    if DecimalText(mcc) && DecimalText(mnc) && |mcc| == 3 && (|mnc| == 2 || |mnc| == 3) {
      PLMNRoundTrip(mcc, mnc);
    }
  }
}
