/** IPv4 addresses as bytes and as dotted-decimal text. */
module Addresses {
  import opened Wrappers
  import opened Bytes

  type IPv4 = b: seq<byte> | |b| == 4 witness [0, 0, 0, 0]

  function Digit(d: int): char
    requires 0 <= d < 10
  {
    '0' + d as char
  }

  function Octet(b: byte): (s: string)
    ensures |s| > 0
  {
    if b < 10 then [Digit(b)]
    else if b < 100 then [Digit(b / 10), Digit(b % 10)]
    else [Digit(b / 100), Digit(b / 10 % 10), Digit(b % 10)]
  }

  function Dotted(ip: IPv4): (s: string)
    ensures s != ""
  {
    Octet(ip[0]) + "." + Octet(ip[1]) + "." + Octet(ip[2]) + "." + Octet(ip[3])
  }

  /** Scans decimal octets: no leading zeros, none above 255, none empty, exactly four. */
  function Scan(s: string, done: seq<byte>, val: byte, digits: nat): Option<IPv4>
    decreases |s|
  {
    if s == "" then (if |done| == 3 && digits > 0 then Some(done + [val]) else None)
    else if '0' <= s[0] <= '9' then
      var next := val * 10 + (s[0] - '0') as int;
      if (digits == 1 && val == 0) || next > 255 then None else Scan(s[1..], done, next, digits + 1)
    else if s[0] == '.' && digits > 0 && |s| > 1 && |done| < 3 then Scan(s[1..], done + [val], 0, 0)
    else None
  }

  function ParseDotted(s: string): Option<IPv4> {
    Scan(s, [], 0, 0)
  }

  lemma ScanDigit(d: int, rest: string, done: seq<byte>, val: byte, digits: nat)
    requires 0 <= d < 10 && !(digits == 1 && val == 0) && (val as int) * 10 + d <= 255
    ensures Scan([Digit(d)] + rest, done, val, digits) == Scan(rest, done, (val as int) * 10 + d, digits + 1)
  {
    assert ([Digit(d)] + rest)[1..] == rest;
    assert (Digit(d) - '0') as int == d;
  }

  lemma ScanOctet(b: byte, rest: string, done: seq<byte>)
    ensures Scan(Octet(b) + rest, done, 0, 0) == Scan(rest, done, b, |Octet(b)|)
  {
    hide Scan, Digit;
    if b < 10 {
      ScanDigit(b, rest, done, 0, 0);
    } else if b < 100 {
      assert Octet(b) + rest == [Digit(b / 10)] + ([Digit(b % 10)] + rest);
      ScanDigit(b / 10, [Digit(b % 10)] + rest, done, 0, 0);
      ScanDigit(b % 10, rest, done, b / 10, 1);
    } else {
      var last := [Digit(b % 10)] + rest;
      assert Octet(b) + rest == [Digit(b / 100)] + ([Digit(b / 10 % 10)] + last);
      ScanDigit(b / 100, [Digit(b / 10 % 10)] + last, done, 0, 0);
      ScanDigit(b / 10 % 10, last, done, b / 100, 1);
      ScanDigit(b % 10, rest, done, b / 10, 2);
    }
  }

  lemma ScanDot(s: string, done: seq<byte>, val: byte, digits: nat)
    requires digits > 0 && s != "" && |done| < 3
    ensures Scan("." + s, done, val, digits) == Scan(s, done + [val], 0, 0)
  {
    assert ("." + s)[1..] == s;
  }

  /** Printing an address and reading it back gives the address. */
  lemma DottedRoundTrip(ip: IPv4)
    ensures ParseDotted(Dotted(ip)) == Some(ip)
  {
    hide Scan, Octet;
    var t3 := Octet(ip[3]);
    var t2 := Octet(ip[2]) + ("." + t3);
    var t1 := Octet(ip[1]) + ("." + t2);
    assert Dotted(ip) == Octet(ip[0]) + ("." + t1);
    ScanOctet(ip[0], "." + t1, []);
    assert [] + [ip[0]] == [ip[0]] && [ip[0]] + [ip[1]] == [ip[0], ip[1]];
    assert [ip[0], ip[1]] + [ip[2]] == [ip[0], ip[1], ip[2]];
    ScanDot(t1, [], ip[0], |Octet(ip[0])|);
    ScanOctet(ip[1], "." + t2, [ip[0]]);
    ScanDot(t2, [ip[0]], ip[1], |Octet(ip[1])|);
    ScanOctet(ip[2], "." + t3, [ip[0], ip[1]]);
    ScanDot(t3, [ip[0], ip[1]], ip[2], |Octet(ip[2])|);
    ScanOctet(ip[3], "", [ip[0], ip[1], ip[2]]);
    assert t3 + "" == t3;
    ScanEnd(ip);
    assert ParseDotted(Dotted(ip)) == Scan(Dotted(ip), [], 0, 0);
  }

  lemma ScanEnd(ip: IPv4)
    ensures Scan("", [ip[0], ip[1], ip[2]], ip[3], |Octet(ip[3])|) == Some(ip)
  {
    assert [ip[0], ip[1], ip[2]] + [ip[3]] == ip;
  }

  /** What the text looks like: four decimal numbers separated by dots, most significant first. */
  lemma DottedText()
    ensures Dotted([192, 0, 2, 10]) == "192.0.2.10"
    ensures ParseDotted("192.0.2.10") == Some([192, 0, 2, 10])
  {
    assert Octet(192) == "192" && Octet(0) == "0" && Octet(2) == "2" && Octet(10) == "10";
    DottedRoundTrip([192, 0, 2, 10]);
  }

  // ---- Optional addresses -----------------------------------------------------

  /** An invalid address prints as the empty string. */
  function AddrString(a: Option<IPv4>): string {
    match a
    case None => ""
    case Some(ip) => Dotted(ip)
  }

  function AddrFromString(s: string): Option<IPv4> {
    if s == "" then None else ParseDotted(s)
  }

  lemma AddrRoundTrip(a: Option<IPv4>)
    ensures AddrFromString(AddrString(a)) == a
  {
    if a.Some? {
      DottedRoundTrip(a.value);
    }
  }
}
