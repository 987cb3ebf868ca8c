/** Numbers as text: printing, parsing and splitting, as the snapshot header needs them. */
module Decimal {
  import opened Arith
  import opened Basics

  predicate IsDigit(c: char) { '0' <= c <= '9' }

  function DigitOf(c: char): nat
    requires IsDigit(c)
  {
    c as int - '0' as int
  }

  function Digit(d: nat): (c: char)
    requires d < 10
    ensures IsDigit(c) && DigitOf(c) == d
  {
    ('0' as int + d) as char
  }

  predicate AllDigits(s: string) { forall i :: 0 <= i < |s| ==> IsDigit(s[i]) }

  function Dec(n: nat): (s: string)
    ensures s != "" && AllDigits(s)
  {
    if n < 10 then [Digit(n)] else Dec(n / 10) + [Digit(n % 10)]
  }

  function Value(s: string): nat
    requires AllDigits(s)
  {
    if s == "" then 0 else Value(s[..|s| - 1]) * 10 + DigitOf(s[|s| - 1])
  }

  lemma {:induction false} DecValue(n: nat)
    ensures Value(Dec(n)) == n
  {
    var s := Dec(n);
    if n < 10 {
      assert s[..0] == "";
    } else {
      DecValue(n / 10);
      assert s[..|s| - 1] == Dec(n / 10);
    }
  }

  /** Parse a number of at most `max`; a leading plus sign is allowed. */
  function Parse(s: string, max: nat): (r: Option<nat>)
    ensures r.Some? ==> r.value <= max
  {
    var t := if s != "" && s[0] == '+' then s[1..] else s;
    if t != "" && AllDigits(t) && Value(t) <= max then Some(Value(t)) else None
  }

  lemma ParseDec(n: nat, max: nat)
    ensures Parse(Dec(n), max) == if n <= max then Some(n) else None
  {
    hide Dec, Value;
    assert IsDigit(Dec(n)[0]);
    DecValue(n);
  }

  // ---- Numbers inside longer text ----

  /** Text that a number before it cannot run into. */
  predicate EndsNumber(s: string) { s == "" || !IsDigit(s[0]) }

  /** How many digits a text starts with. */
  function DigitRun(s: string): (n: nat)
    ensures n <= |s| && AllDigits(s[..n]) && EndsNumber(s[n..])
  {
    if s == "" || !IsDigit(s[0]) then 0
    else
      var n := 1 + DigitRun(s[1..]);
      assert s[..n] == [s[0]] + s[1..][..n - 1] && s[n..] == s[1..][n - 1..];
      n
  }

  lemma DigitRunIs(digits: string, rest: string)
    requires AllDigits(digits) && EndsNumber(rest)
    ensures DigitRun(digits + rest) == |digits|
  {
    hide DigitRun;
    var s := digits + rest;
    var n := DigitRun(s);
    assert forall k :: 0 <= k < n ==> s[..n][k] == s[k];
    assert n < |s| ==> s[n..][0] == s[n];
    assert |digits| < |s| ==> s[|digits|] == rest[0];
  }

  /** A number and what follows it can be told apart. */
  lemma NumberThenText(i: nat, a: string, j: nat, b: string)
    requires EndsNumber(a) && EndsNumber(b) && Dec(i) + a == Dec(j) + b
    ensures i == j && a == b
  {
    hide Dec, DigitRun;
    DigitRunIs(Dec(i), a);
    DigitRunIs(Dec(j), b);
    var s, t := Dec(i) + a, Dec(j) + b;
    assert s[..|Dec(i)|] == Dec(i) && t[..|Dec(j)|] == Dec(j);
    assert s[|Dec(i)|..] == a && t[|Dec(j)|..] == b;
    DecValue(i);
    DecValue(j);
  }

  // ---- Splitting ----

  predicate Free(s: string, sep: char) { forall i :: 0 <= i < |s| ==> s[i] != sep }

  function Find(s: string, sep: char): (i: nat)
    ensures i <= |s| && Free(s[..i], sep) && (i < |s| ==> s[i] == sep)
  {
    if s == "" || s[0] == sep then 0
    else
      var i := 1 + Find(s[1..], sep);
      assert s[..i] == [s[0]] + s[1..][..i - 1];
      i
  }

  function Split(s: string, sep: char): (parts: seq<string>)
    ensures parts != []
    decreases |s|
  {
    var i := Find(s, sep);
    if i == |s| then [s] else [s[..i]] + Split(s[i + 1..], sep)
  }

  lemma SplitFirst(a: string, rest: string, sep: char)
    requires Free(a, sep)
    ensures Split(a, sep) == [a]
    ensures Split(a + [sep] + rest, sep) == [a] + Split(rest, sep)
  {
    var s := a + [sep] + rest;
    var i := Find(s, sep);
    assert s[|a|] == sep && forall k :: 0 <= k < |a| ==> s[k] == a[k];
    assert forall k :: 0 <= k < i ==> s[..i][k] == s[k];
    assert i == |a|;
    assert s[..i] == a && s[i + 1..] == rest;
    assert Find(a, sep) == |a|;
  }

  function Join4(a: string, b: string, c: string, d: string, sep: char): string {
    a + [sep] + (b + [sep] + (c + [sep] + d))
  }

  lemma SplitJoin4(a: string, b: string, c: string, d: string, sep: char)
    requires Free(a, sep) && Free(b, sep) && Free(c, sep) && Free(d, sep)
    ensures Split(Join4(a, b, c, d, sep), sep) == [a, b, c, d]
  {
    hide Split;
    SplitFirst(a, b + [sep] + (c + [sep] + d), sep);
    SplitFirst(b, c + [sep] + d, sep);
    SplitFirst(c, d, sep);
    SplitFirst(d, "", sep);
  }

  // ---- Addresses and port forwards ----

  type Ipv4 = a: seq<byte> | |a| == 4 witness [0, 0, 0, 0]
  type Port = p: nat | p < 0x1_0000

  function Ipv4Text(a: Ipv4): string { Join4(Dec(a[0]), Dec(a[1]), Dec(a[2]), Dec(a[3]), '.') }

  function ParseIpv4(s: string): Option<Ipv4> {
    var o := Split(s, '.');
    if |o| != 4 then None
    else
      var a, b, c, d := Parse(o[0], 255), Parse(o[1], 255), Parse(o[2], 255), Parse(o[3], 255);
      if a.Some? && b.Some? && c.Some? && d.Some? then Some([a.value, b.value, c.value, d.value]) else None
  }

  lemma Ipv4RoundTrip(a: Ipv4)
    ensures ParseIpv4(Ipv4Text(a)) == Some(a)
  {
    hide Dec, Split, Parse;
    SplitJoin4(Dec(a[0]), Dec(a[1]), Dec(a[2]), Dec(a[3]), '.');
    ParseDec(a[0], 255);
    ParseDec(a[1], 255);
    ParseDec(a[2], 255);
    ParseDec(a[3], 255);
    assert a == [a[0], a[1], a[2], a[3]];
  }

  datatype PortForward = PortForward(hostAddr: Ipv4, hostPort: Port, guestIp: Ipv4, guestPort: Port)

  function EncodePortFwd(pf: PortForward): string {
    Join4(Ipv4Text(pf.hostAddr), Dec(pf.hostPort), Ipv4Text(pf.guestIp), Dec(pf.guestPort), ':')
  }

  function DecodePortFwd(s: string): Option<PortForward> {
    var parts := Split(s, ':');
    if |parts| != 4 then None
    else
      var host, hostPort, guest, guestPort := ParseIpv4(parts[0]), Parse(parts[1], 0xFFFF), ParseIpv4(parts[2]), Parse(parts[3], 0xFFFF);
      if host.Some? && hostPort.Some? && guest.Some? && guestPort.Some? then
        Some(PortForward(host.value, hostPort.value, guest.value, guestPort.value))
      else None
  }

  lemma Ipv4TextIsFree(a: Ipv4)
    ensures Free(Ipv4Text(a), ':')
  {
    hide Dec;
    var s := Ipv4Text(a);
    forall i | 0 <= i < |s|
      ensures s[i] != ':'
    {
      assert IsDigit(s[i]) || s[i] == '.';
    }
  }

  /** A port forward in the snapshot header reads back. */
  lemma PortFwdRoundTrip(pf: PortForward)
    ensures DecodePortFwd(EncodePortFwd(pf)) == Some(pf)
  {
    hide Dec, Split, Parse, Ipv4Text, ParseIpv4;
    Ipv4TextIsFree(pf.hostAddr);
    Ipv4TextIsFree(pf.guestIp);
    SplitJoin4(Ipv4Text(pf.hostAddr), Dec(pf.hostPort), Ipv4Text(pf.guestIp), Dec(pf.guestPort), ':');
    Ipv4RoundTrip(pf.hostAddr);
    Ipv4RoundTrip(pf.guestIp);
    ParseDec(pf.hostPort, 0xFFFF);
    ParseDec(pf.guestPort, 0xFFFF);
  }

  /** The text of a port forward, as older snapshots have it too. */
  lemma PortFwdText()
    ensures EncodePortFwd(PortForward([127, 0, 0, 1], 80, [172, 29, 255, 2], 8)) == "127.0.0.1:80:172.29.255.2:8"
  {
    hide Dec;
    SmallDecimals();
  }

  lemma SmallDecimals()
    ensures Dec(0) == "0" && Dec(1) == "1" && Dec(2) == "2" && Dec(8) == "8" && Dec(29) == "29" && Dec(80) == "80"
    ensures Dec(127) == "127" && Dec(172) == "172" && Dec(255) == "255"
  {
    assert Dec(12) == "12" && Dec(17) == "17" && Dec(25) == "25";
  }
}
