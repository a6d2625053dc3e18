/** Searching strings for a byte, as the strings package does. */
module Strings {
  /** strings.IndexByte: the first position of c, or -1. */
  function FirstIndex(s: string, c: char): (i: int)
    ensures -1 <= i < |s|
    ensures i == -1 <==> c !in s
    ensures i >= 0 ==> s[i] == c && c !in s[..i]
  {
    FirstFrom(s, c, 0)
  }

  function FirstFrom(s: string, c: char, n: nat): (i: int)
    requires n <= |s|
    ensures i == -1 || (n <= i < |s| && s[i] == c)
    ensures forall k | n <= k < (if i < 0 then |s| else i) :: s[k] != c
    decreases |s| - n
  {
    if n == |s| then -1 else if s[n] == c then n else FirstFrom(s, c, n + 1)
  }

  lemma FirstIndexIs(s: string, c: char, i: nat)
    requires i < |s| && s[i] == c
    requires forall k | 0 <= k < i :: s[k] != c
    ensures FirstIndex(s, c) == i
  {
  }

  /** strings.LastIndexByte: the last position of c, or -1. */
  function LastIndex(s: string, c: char): (i: int)
    ensures -1 <= i < |s|
    ensures i == -1 <==> c !in s
    ensures i >= 0 ==> s[i] == c && c !in s[i + 1..]
  {
    LastBefore(s, c, |s|)
  }

  function LastBefore(s: string, c: char, n: nat): (i: int)
    requires n <= |s|
    ensures i == -1 || (0 <= i < n && s[i] == c)
    ensures forall k | i < k < n :: s[k] != c
  {
    if n == 0 then -1 else if s[n - 1] == c then n - 1 else LastBefore(s, c, n - 1)
  }

  lemma LastIndexIs(s: string, c: char, i: int)
    requires -1 <= i < |s| && (i >= 0 ==> s[i] == c)
    requires forall k | i < k < |s| :: s[k] != c
    ensures LastIndex(s, c) == i
  {
  }

  /** The last separator of a + [c] + b is the one between them, when b has none. */
  lemma LastSeparator(a: string, c: char, b: string)
    requires c !in b
    ensures LastIndex(a + [c] + b, c) == |a|
  {
    LastIndexIs(a + [c] + b, c, |a|);
  }

  /** Appending text without c leaves its last position alone. */
  lemma NoLaterIndex(a: string, b: string, c: char)
    requires c !in b
    ensures LastIndex(a + b, c) == LastIndex(a, c)
  {
    var i := LastIndex(a, c);
    forall k | i < k < |a + b| ensures (a + b)[k] != c {
      assert k < |a| ==> a[k] == a[i + 1..][k - i - 1];
    }
    LastIndexIs(a + b, c, i);
  }

  /** What follows the last c; the whole text when there is none. */
  function AfterLast(s: string, c: char): string { s[LastIndex(s, c) + 1..] }

  lemma AfterLastKeepsTail(a: string, tail: string, c: char)
    requires c !in tail
    ensures AfterLast(a + tail, c) == AfterLast(a, c) + tail
  {
    NoLaterIndex(a, tail, c);
    var from := LastIndex(a, c) + 1;
    assert (a + tail)[from..] == a[from..] + tail;
  }

  lemma AfterLastSeparator(a: string, c: char, b: string, url: string)
    requires c !in b && url == a + [c] + b
    ensures AfterLast(url, c) == b
  {
    LastSeparator(a, c, b);
    assert url[|a| + 1..] == b;
  }

  lemma SplitAtLast(s: string, c: char)
    ensures c !in AfterLast(s, c)
    ensures var i := LastIndex(s, c); if i < 0 then AfterLast(s, c) == s else s == s[..i] + [c] + AfterLast(s, c)
  {
  }

  /** The first separator of a + [c] + b is the one between them, when a has none. */
  lemma FirstSeparator(a: string, c: char, b: string)
    requires c !in a
    ensures FirstIndex(a + [c] + b, c) == |a|
  {
    FirstIndexIs(a + [c] + b, c, |a|);
  }
}

/** Printing a socket address as host:port and reading the port back. */
module HostPort {
  import opened Prelude
  import opened Strings

  datatype SocketAddress = SocketAddress(address: string, port: UInt32)

  predicate IsDigit(c: char) { '0' <= c <= '9' }

  function DigitOf(n: nat): (c: char)
    requires n < 10
    ensures IsDigit(c)
  {
    '0' + n as char
  }

  /** n in base ten, as the %d verb prints it. */
  function Decimal(n: nat): (s: string)
    ensures |s| > 0
    ensures forall c | c in s :: IsDigit(c)
    ensures s[0] == '0' ==> n == 0
  {
    if n < 10 then [DigitOf(n)] else Decimal(n / 10) + [DigitOf(n % 10)]
  }

  function DigitsValue(s: string): nat
    requires forall c | c in s :: IsDigit(c)
  {
    if s == [] then 0
    else
      assert IsDigit(s[|s| - 1]);
      10 * DigitsValue(s[..|s| - 1]) + (s[|s| - 1] - '0') as int
  }

  /** strconv.ParseUint(s, 10, 32). */
  function ParseUint32(s: string): Option<UInt32> {
    if s == [] || (exists c | c in s :: !IsDigit(c)) then None
    else if DigitsValue(s) >= 0x1_0000_0000 then None
    else Some(DigitsValue(s))
  }

  /** net.SplitHostPort; every error is None. */
  function SplitHostPort(s: string): Option<(string, string)> {
    var i := LastIndex(s, ':');
    if i < 0 then None
    else if s[0] == '[' then
      var end := FirstIndex(s, ']');
      if end < 0 || end + 1 != i then None
      else if '[' in s[1..] || ']' in s[end + 1..] then None
      else Some((s[1..end], s[i + 1..]))
    else if ':' in s[..i] || '[' in s || ']' in s then None
    else Some((s[..i], s[i + 1..]))
  }

  /** The port of a host:port target, or 0. */
  function PortFromHostPort(target: string): UInt32 {
    match SplitHostPort(target)
    case None => 0
    case Some((_, port)) =>
      match ParseUint32(port)
      case None => 0
      case Some(p) => p
  }

  /** host:port, or "" for a missing address. */
  function FormatSocketAddress(sa: Option<SocketAddress>): string {
    match sa
    case None => ""
    case Some(a) => a.address + ":" + Decimal(a.port)
  }

  /** The hosts whose printed address splits again: a plain name or IPv4 address,
      or a host that already carries its own brackets. */
  predicate Splittable(host: string) {
    if host != [] && host[0] == '[' then
      && |host| >= 2
      && host[|host| - 1] == ']'
      && '[' !in host[1..]
      && ']' !in host[..|host| - 1]
    else
      ':' !in host && '[' !in host && ']' !in host
  }

  lemma {:induction false} DecimalValue(n: nat)
    ensures DigitsValue(Decimal(n)) == n
  {
    if n < 10 {
      assert Decimal(n)[..0] == [];
    } else {
      DecimalValue(n / 10);
      var s := Decimal(n);
      assert s[..|s| - 1] == Decimal(n / 10);
    }
  }

  /** A bracketed host splits when its first ']' is its last byte and nothing nests. */
  lemma BracketedSplits(host: string, tail: string)
    requires host != [] && host[0] == '[' && tail != []
    requires ']' !in tail && '[' !in tail
    requires LastIndex(host + tail, ':') == |host|
    ensures SplitHostPort(host + tail).Some? <==> Splittable(host)
  {
    var s := host + tail;
    assert s[..|host|] == host;
    if Splittable(host) {
      SplittableSplits(host, tail);
    } else if SplitHostPort(s).Some? {
      SplitMeansSplittable(host, s);
    }
  }

  lemma FirstBracketCloses(host: string, tail: string)
    requires Splittable(host) && host != [] && host[0] == '['
    ensures FirstIndex(host + tail, ']') == |host| - 1
  {
    var inner := host[..|host| - 1];
    assert host + tail == inner + [']'] + tail;
    FirstSeparator(inner, ']', tail);
  }

  lemma BracketedParts(host: string, tail: string)
    requires host != [] && host[0] == '[' && '[' !in host[1..]
    requires ']' !in tail && '[' !in tail
    ensures (host + tail)[0] == '[' && '[' !in (host + tail)[1..] && ']' !in (host + tail)[|host|..]
  {
    assert (host + tail)[|host|..] == tail;
    assert (host + tail)[1..] == host[1..] + tail;
  }

  lemma SplittableSplits(host: string, tail: string)
    requires Splittable(host) && host != [] && host[0] == '['
    requires ']' !in tail && '[' !in tail
    requires LastIndex(host + tail, ':') == |host|
    ensures SplitHostPort(host + tail).Some?
  {
    FirstBracketCloses(host, tail);
    BracketedParts(host, tail);
  }

  lemma SplitMeansSplittable(host: string, s: string)
    requires host != [] && host[0] == '[' && |host| < |s| && s[..|host|] == host
    requires LastIndex(s, ':') == |host| && SplitHostPort(s).Some?
    ensures Splittable(host)
  {
    var end := FirstIndex(s, ']');
    assert s[0] == '[' && end + 1 == |host|;
    assert s[..end] == host[..|host| - 1] && host[end] == ']';
    forall c | c in host[1..] ensures c in s[1..] {
      var k :| 1 <= k < |host| && host[k] == c;
      assert s[1..][k - 1] == s[..|host|][k];
    }
  }

  lemma SplitPrinted(host: string, port: string)
    requires ':' !in port && '[' !in port && ']' !in port
    ensures SplitHostPort(host + ":" + port).Some? <==> Splittable(host)
    ensures Splittable(host) ==> SplitHostPort(host + ":" + port).value.1 == port
  {
    var s, tail := host + ":" + port, [':'] + port;
    assert s == host + [':'] + port == host + tail;
    LastSeparator(host, ':', port);
    assert s[|host| + 1..] == port;
    if host != [] && host[0] == '[' {
      BracketedSplits(host, tail);
    } else {
      PlainSplits(host, tail);
    }
  }

  lemma PlainSplits(host: string, tail: string)
    requires (host == [] || host[0] != '[') && tail != [] && tail[0] == ':'
    requires ']' !in tail && '[' !in tail
    requires LastIndex(host + tail, ':') == |host|
    ensures SplitHostPort(host + tail).Some? <==> Splittable(host)
  {
    var s := host + tail;
    assert s[..|host|] == host && s[0] != '[';
    assert forall c :: c in s <==> c in host || c in tail;
  }

  /** The printer and the parser agree: the port survives exactly when the host is
      splittable (or the port is 0, which is also what a failed parse yields). */
  lemma PortRoundTrip(host: string, port: UInt32)
    ensures PortFromHostPort(FormatSocketAddress(Some(SocketAddress(host, port))))
         == if Splittable(host) then port else 0
  {
    assert !IsDigit(']') && !IsDigit('[') && !IsDigit(':');
    SplitPrinted(host, Decimal(port));
    DecimalValue(port);
  }

  /** Any target, printed by this code or not: its port is what follows the host, when that is a
      decimal number of 32 bits. */
  lemma TargetPort(host: string, port: string)
    requires ':' !in port && '[' !in port && ']' !in port
    ensures PortFromHostPort(host + ":" + port) ==
      if !Splittable(host) || port == "" || (exists c | c in port :: c < '0' || '9' < c) then 0
      else if DigitsValue(port) < 0x1_0000_0000 then DigitsValue(port)
      else 0
  {
    SplitPrinted(host, port);
    assert forall c: char :: !IsDigit(c) <==> c < '0' || '9' < c;
  }

  /** A printed address, and the value of its port's digits. */
  lemma AddressExample()
    ensures FormatSocketAddress(Some(SocketAddress("10.0.0.1", 8021))) == "10.0.0.1:8021"
    ensures DigitsValue("8021") == 8021
  {
    assert Decimal(8) == ['8'];
    assert Decimal(80) == Decimal(8) + ['0'];
    assert Decimal(802) == Decimal(80) + ['2'];
    assert Decimal(8021) == Decimal(802) + ['1'] == "8021";
    DecimalValue(8021);
  }

  lemma PortSurvivesExactly(host: string, port: UInt32)
    ensures PortFromHostPort(FormatSocketAddress(Some(SocketAddress(host, port)))) == port
      <==> port == 0 || Splittable(host)
  {
    PortRoundTrip(host, port);
  }

  /** An unbracketed IPv6 literal loses its port. */
  lemma Ipv6LosesPort()
    ensures PortFromHostPort(FormatSocketAddress(Some(SocketAddress("::1", 443)))) == 0
  {
    assert "::1"[0] == ':';
    PortRoundTrip("::1", 443);
  }

  /** No two addresses print alike, whatever their hosts contain. */
  lemma FormatInjective(a: SocketAddress, b: SocketAddress)
    requires FormatSocketAddress(Some(a)) == FormatSocketAddress(Some(b))
    ensures a == b
  {
    var s := FormatSocketAddress(Some(a));
    assert s == a.address + [':'] + Decimal(a.port);
    assert s == b.address + [':'] + Decimal(b.port);
    LastSeparator(a.address, ':', Decimal(a.port));
    LastSeparator(b.address, ':', Decimal(b.port));
    assert a.address == s[..|a.address|] == b.address;
    assert Decimal(a.port) == s[|a.address| + 1..] == Decimal(b.port);
    DecimalValue(a.port);
    DecimalValue(b.port);
  }

  /** Only a missing address prints as the empty string. */
  lemma OnlyMissingIsEmpty(sa: Option<SocketAddress>)
    ensures FormatSocketAddress(sa) == "" <==> sa.None?
    ensures PortFromHostPort("") == 0
  {
    assert SplitHostPort("").None?;
  }
}
