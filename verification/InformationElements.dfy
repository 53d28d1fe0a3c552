/**
 * GTPv2-C information elements (internal/gtpv2/ie/ie.go): the flat TLIV codec and
 * grouped elements, whose value is itself a list of encoded elements.
 */
module InformationElements {
  import opened Wrappers
  import opened Bytes

  datatype IE = IE(typ: byte, instance: byte, value: seq<byte>)

  datatype ParseIEError = HeaderTruncated | ValueTruncated

  const MAX_VALUE: nat := 0xFFFF

  /** IE.Marshal: the length octets are the low 16 bits of the value length. */
  function MarshalIE(e: IE): (b: seq<byte>)
    ensures |b| == 4 + |e.value|
  {
    [e.typ] + Put16(|e.value| % 0x1_0000) + [e.instance % 16] + e.value
  }

  function MarshalIEs(es: seq<IE>): seq<byte> {
    if es == [] then [] else MarshalIE(es[0]) + MarshalIEs(es[1..])
  }

  function ParseIEs(b: seq<byte>): Result<seq<IE>, ParseIEError> {
    if b == [] then Ok([])
    else if |b| < 4 then Err(HeaderTruncated)
    else
      var length := Get16(b[1..3]);
      if length > |b| - 4 then Err(ValueTruncated)
      else Prepend([IE(b[0], b[3] % 16, b[4..4 + length])], ParseIEs(b[4 + length..]))
  }

  function Prepend(es: seq<IE>, r: Result<seq<IE>, ParseIEError>): Result<seq<IE>, ParseIEError> {
    match r
    case Ok(rest) => Ok(es + rest)
    case Err(e) => Err(e)
  }

  /** What the four-bit instance field can carry. */
  function Canonical(e: IE): IE {
    e.(instance := e.instance % 16)
  }

  function CanonicalAll(es: seq<IE>): (r: seq<IE>)
    ensures |r| == |es|
    ensures forall i :: 0 <= i < |es| ==> r[i] == Canonical(es[i])
  {
    seq(|es|, i requires 0 <= i < |es| => Canonical(es[i]))
  }

  predicate Fits(es: seq<IE>) {
    forall i :: 0 <= i < |es| ==> |es[i].value| <= MAX_VALUE
  }

  /** The loop of ParseIEs computes the recursive decoder. */
  method ParseIEsLoop(b: seq<byte>) returns (r: Result<seq<IE>, ParseIEError>)
    ensures r == ParseIEs(b)
  {
    var rest := b;
    var ies: seq<IE> := [];
    PrependNothing(ParseIEs(b));
    while |rest| > 0
      invariant ParseIEs(b) == Prepend(ies, ParseIEs(rest))
      decreases |rest|
    {
      if |rest| < 4 {
        return Err(HeaderTruncated);
      }
      var typ, length, instance := rest[0], Get16(rest[1..3]), rest[3] % 16;
      var tail := rest[4..];
      if length > |tail| {
        return Err(ValueTruncated);
      }
      assert rest[4..4 + length] == tail[..length];
      assert rest[4 + length..] == tail[length..];
      var e := IE(typ, instance, tail[..length]);
      PrependAssociates(ies, [e], ParseIEs(tail[length..]));
      ies := ies + [e];
      rest := tail[length..];
    }
    assert ies + [] == ies;
    return Ok(ies);
  }

  lemma PrependNothing(r: Result<seq<IE>, ParseIEError>)
    ensures Prepend([], r) == r
  {
    if r.Ok? {
      assert [] + r.value == r.value;
    }
  }

  lemma PrependAssociates(a: seq<IE>, b: seq<IE>, r: Result<seq<IE>, ParseIEError>)
    ensures Prepend(a, Prepend(b, r)) == Prepend(a + b, r)
  {
    if r.Ok? {
      assert a + (b + r.value) == a + b + r.value;
    }
  }

  /** The octets of one element: type, two octets of length, the instance in the lower half of the next, and the value. */
  lemma ElementOctets(e: IE)
    requires |e.value| <= MAX_VALUE
    ensures var b := MarshalIE(e);
            && |b| == 4 + |e.value| && b[0] == e.typ && (b[1] as int) * 0x100 + b[2] == |e.value|
            && b[3] == e.instance % 16 && b[4..] == e.value
  {
  }

  lemma ParseOneThenRest(e: IE, rest: seq<byte>)
    requires |e.value| <= MAX_VALUE
    ensures ParseIEs(MarshalIE(e) + rest) == Prepend([Canonical(e)], ParseIEs(rest))
  {
    var b := MarshalIE(e) + rest;
    assert b[1..3] == Put16(|e.value|);
    assert b[4..4 + |e.value|] == e.value;
    assert b[4 + |e.value|..] == rest;
  }

  /** Decoding undoes encoding for any list of elements whose values fit the length field. */
  lemma {:induction false} ParseMarshalIEs(es: seq<IE>)
    requires Fits(es)
    ensures ParseIEs(MarshalIEs(es)) == Ok(CanonicalAll(es))
  {
    if es == [] {
    } else {
      ParseMarshalIEs(es[1..]);
      ParseOneThenRest(es[0], MarshalIEs(es[1..]));
      assert CanonicalAll(es) == [Canonical(es[0])] + CanonicalAll(es[1..]);
    }
  }

  /**
   * Whatever the decoder accepts re-encodes to the same number of octets, and decodes to
   * itself again.
   */
  lemma {:induction false} MarshalParsedIEs(b: seq<byte>)
    requires ParseIEs(b).Ok?
    ensures Fits(ParseIEs(b).value)
    ensures CanonicalAll(ParseIEs(b).value) == ParseIEs(b).value
    ensures |MarshalIEs(ParseIEs(b).value)| == |b|
    decreases |b|
  {
    if b == [] {
    } else {
      var length := Get16(b[1..3]);
      var e := IE(b[0], b[3] % 16, b[4..4 + length]);
      var rest := b[4 + length..];
      MarshalParsedIEs(rest);
      var es := [e] + ParseIEs(rest).value;
      assert es[0] == e && es[1..] == ParseIEs(rest).value;
      assert ParseIEs(b).value == es;
      assert forall i :: 0 <= i < |es| ==> Canonical(es[i]) == es[i];
    }
  }

  // ---- Grouped elements -------------------------------------------------------

  /** An element tree: a grouped element (Bearer Context) nests lists to any depth. */
  datatype Tree =
    | Leaf(typ: byte, instance: byte, value: seq<byte>)
    | Group(typ: byte, instance: byte, children: seq<Tree>)

  function ToIE(t: Tree): IE
    decreases t, 1
  {
    match t
    case Leaf(typ, instance, value) => IE(typ, instance, value)
    case Group(typ, instance, children) => IE(typ, instance, MarshalTrees(children))
  }

  /** NewBearerContext concatenates its encoded children without checking any length. */
  function MarshalTrees(ts: seq<Tree>): seq<byte>
    decreases ts, 0
  {
    if ts == [] then [] else MarshalIE(ToIE(ts[0])) + MarshalTrees(ts[1..])
  }

  function ToIEs(ts: seq<Tree>): (es: seq<IE>)
    ensures |es| == |ts|
    ensures forall i :: 0 <= i < |ts| ==> es[i] == ToIE(ts[i])
  {
    seq(|ts|, i requires 0 <= i < |ts| => ToIE(ts[i]))
  }

  lemma {:induction false} MarshalTreesIsMarshalIEs(ts: seq<Tree>)
    ensures MarshalTrees(ts) == MarshalIEs(ToIEs(ts))
  {
    if ts != [] {
      MarshalTreesIsMarshalIEs(ts[1..]);
      assert ToIEs(ts)[1..] == ToIEs(ts[1..]);
    }
  }

  /** The decoded element e carries exactly the tree t, group by group. */
  predicate Carries(e: IE, t: Tree)
    decreases t, 1
  {
    e.typ == t.typ && e.instance == t.instance % 16 &&
    match t
    case Leaf(_, _, value) => e.value == value
    case Group(_, _, children) =>
      var r := ParseIEs(e.value);
      r.Ok? && CarryAll(r.value, children)
  }

  predicate CarryAll(es: seq<IE>, ts: seq<Tree>)
    decreases ts, 0
  {
    |es| == |ts| && (ts != [] ==> Carries(es[0], ts[0]) && CarryAll(es[1..], ts[1..]))
  }

  /**
   * A tree of any depth survives encoding as soon as its outermost value fits the length
   * field: no inner length check is needed, since inner values are shorter still.
   */
  lemma {:induction false} GroupedRoundTrip(t: Tree)
    requires |ToIE(t).value| <= MAX_VALUE
    ensures Carries(Canonical(ToIE(t)), t)
    decreases t, 1
  {
    match t
    case Leaf(_, _, _) =>
    case Group(_, _, children) => ChildrenRoundTrip(children);
  }

  lemma {:induction false} ChildrenRoundTrip(ts: seq<Tree>)
    requires |MarshalTrees(ts)| <= MAX_VALUE
    ensures ParseIEs(MarshalTrees(ts)).Ok?
    ensures CarryAll(ParseIEs(MarshalTrees(ts)).value, ts)
    decreases ts, 0
  {
    if ts == [] {
    } else {
      var e, rest := ToIE(ts[0]), MarshalTrees(ts[1..]);
      GroupedRoundTrip(ts[0]);
      ChildrenRoundTrip(ts[1..]);
      ParseOneThenRest(e, rest);
      var es := ParseIEs(rest).value;
      assert ([Canonical(e)] + es)[1..] == es;
    }
  }
}
