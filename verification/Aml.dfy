/**
 * AML as the DSDT uses it: a printer for names, integers, strings, packages,
 * buffers, scopes and devices, and the strict parser that inverts it.
 * (Sections 20.2.3 to 20.2.5 of ACPI 6.5.)
 */
module Aml {
  import opened Arith
  import opened Basics

  type Bytes = seq<byte>

  const NAME_OP: byte := 0x08
  const BYTE_PREFIX: byte := 0x0A
  const WORD_PREFIX: byte := 0x0B
  const DWORD_PREFIX: byte := 0x0C
  const STRING_PREFIX: byte := 0x0D
  const QWORD_PREFIX: byte := 0x0E
  const SCOPE_OP: byte := 0x10
  const BUFFER_OP: byte := 0x11
  const PACKAGE_OP: byte := 0x12
  const EXT_PREFIX: byte := 0x5B
  const DEVICE_OP: byte := 0x82
  const ROOT_CHAR: byte := 0x5C

  // ---- Little-endian fields ----

  function Power256(n: nat): nat { if n == 0 then 1 else 256 * Power256(n - 1) }

  lemma Powers()
    ensures Power256(1) == 0x100 && Power256(2) == 0x1_0000 && Power256(3) == 0x100_0000
    ensures Power256(4) == 0x1_0000_0000 && Power256(8) == 0x1_0000_0000_0000_0000
  {
    assert Power256(2) == 0x1_0000 && Power256(3) == 0x100_0000 && Power256(4) == 0x1_0000_0000;
    assert Power256(5) == 0x100_0000_0000 && Power256(6) == 0x1_0000_0000_0000 && Power256(7) == 0x100_0000_0000_0000;
  }

  /** The `n` low bytes of `v`, least significant first. */
  function LittleEndian(v: nat, n: nat): (r: Bytes)
    ensures |r| == n
  {
    if n == 0 then [] else [v % 256] + LittleEndian(v / 256, n - 1)
  }

  function FromLittleEndian(b: Bytes): nat {
    if b == [] then 0 else b[0] + 256 * FromLittleEndian(b[1..])
  }

  lemma {:induction false} LittleEndianRoundTrip(v: nat, n: nat)
    requires v < Power256(n)
    ensures FromLittleEndian(LittleEndian(v, n)) == v
  {
    if n > 0 {
      LittleEndianRoundTrip(v / 256, n - 1);
      assert LittleEndian(v, n)[1..] == LittleEndian(v / 256, n - 1);
    }
  }

  lemma {:induction false} FromLittleEndianRoundTrip(b: Bytes)
    ensures FromLittleEndian(b) < Power256(|b|)
    ensures LittleEndian(FromLittleEndian(b), |b|) == b
  {
    if b != [] {
      FromLittleEndianRoundTrip(b[1..]);
      DivMod(FromLittleEndian(b[1..]), b[0], 256, FromLittleEndian(b));
    }
  }

  // ---- Package lengths ----

  /** The largest total an `n`-byte PkgLength can hold, plus one. */
  function Capacity(n: nat): nat { if n == 1 then 64 else if n == 2 then 0x1000 else if n == 3 then 0x10_0000 else 0x1000_0000 }

  predicate Encodable(body: nat) { body + 4 < Capacity(4) }

  /** How many bytes the PkgLength of a `body`-byte body takes. */
  function PkgWidth(body: nat): (n: nat)
    requires Encodable(body)
    ensures 1 <= n <= 4 && body + n < Capacity(n)
    ensures forall m :: 1 <= m < n ==> body + m >= Capacity(m)
  {
    if body < 63 then 1
    else if body + 2 < Capacity(2) then 2
    else if body + 3 < Capacity(3) then 3
    else 4
  }

  /** The encoded length of a package: its own bytes count towards it. */
  function PkgLength(body: nat): (r: Bytes)
    requires Encodable(body)
    ensures |r| == PkgWidth(body)
  {
    if body < 63 then [body + 1]
    else
      var n := PkgWidth(body);
      var total := body + n;
      [(n - 1) * 64 + total % 16] + LittleEndian(total / 16, n - 1)
  }

  /** Read a PkgLength: its value and how many bytes it took. */
  function ReadPkgLength(b: Bytes): Option<(nat, nat)> {
    if b == [] then None
    else
      var n := 1 + b[0] / 64;
      if n == 1 then Some((b[0] % 64, 1))
      else if |b| < n then None
      else Some((b[0] % 16 + 16 * FromLittleEndian(b[1..n]), n))
  }

  /** The encoding counts itself, and no shorter one could. */
  lemma PkgLengthCountsItself(body: nat, rest: Bytes)
    requires Encodable(body)
    ensures ReadPkgLength(PkgLength(body) + rest) == Some((body + |PkgLength(body)|, |PkgLength(body)|))
    ensures forall m :: 1 <= m < |PkgLength(body)| ==> body + m >= Capacity(m)
  {
    var b, n := PkgLength(body) + rest, PkgWidth(body);
    if body >= 63 {
      var total := body + n;
      assert b[0] / 64 == n - 1 && b[0] % 16 == total % 16;
      assert b[1..n] == LittleEndian(total / 16, n - 1);
      Powers();
      LittleEndianRoundTrip(total / 16, n - 1);
    }
  }

  // ---- Objects ----

  datatype Value =
    | Integer(v: nat)
    | Text(s: Bytes)
    | Package(elements: seq<nat>)
    | Buffer(bytes: Bytes)

  /** A name segment, from the root or from here. */
  datatype Path = Path(rooted: bool, seg: Bytes)

  datatype Term =
    | Name(seg: Bytes, value: Value)
    | Scope(path: Path, body: seq<Term>)
    | Device(path: Path, body: seq<Term>)

  // ---- Printing ----

  function PrintInteger(v: nat): (r: Bytes)
    ensures |r| >= 1
  {
    if v < 2 then [v]
    else if v < 0x100 then [BYTE_PREFIX] + LittleEndian(v, 1)
    else if v < 0x1_0000 then [WORD_PREFIX] + LittleEndian(v, 2)
    else if v < 0x1_0000_0000 then [DWORD_PREFIX] + LittleEndian(v, 4)
    else [QWORD_PREFIX] + LittleEndian(v, 8)
  }

  function PrintIntegers(vs: seq<nat>): Bytes {
    if vs == [] then [] else PrintInteger(vs[0]) + PrintIntegers(vs[1..])
  }

  function WithPkgLength(op: Bytes, body: Bytes): Bytes
    requires Encodable(|body|)
  {
    op + PkgLength(|body|) + body
  }

  predicate PrintableInteger(v: nat) { v < 0x1_0000_0000_0000_0000 }

  predicate PrintableValue(v: Value) {
    match v
    case Integer(n) => PrintableInteger(n)
    case Text(s) => forall i :: 0 <= i < |s| ==> 1 <= s[i] < 0x80
    case Package(es) => |es| < 256 && (forall e :: e in es ==> PrintableInteger(e)) && Encodable(1 + |PrintIntegers(es)|)
    case Buffer(b) => Encodable(|PrintInteger(|b|)| + |b|)
  }

  function PrintValue(v: Value): (r: Bytes)
    requires PrintableValue(v)
  {
    match v
    case Integer(n) => PrintInteger(n)
    case Text(s) => [STRING_PREFIX] + s + [0]
    case Package(es) => WithPkgLength([PACKAGE_OP], [|es|] + PrintIntegers(es))
    case Buffer(b) => WithPkgLength([BUFFER_OP], PrintInteger(|b|) + b)
  }

  predicate NameChar(c: byte) { 0x41 <= c <= 0x5A || 0x30 <= c <= 0x39 || c == 0x5F }

  /** Four characters, the first not a digit. */
  predicate NameSeg(s: Bytes) {
    |s| == 4 && !(0x30 <= s[0] <= 0x39) && NameChar(s[0]) && NameChar(s[1]) && NameChar(s[2]) && NameChar(s[3])
  }

  function PrintPath(p: Path): Bytes { (if p.rooted then [ROOT_CHAR] else []) + p.seg }

  predicate Printable(t: Term)
    decreases t, 0
  {
    match t
    case Name(seg, value) => NameSeg(seg) && PrintableValue(value)
    case Scope(path, body) => NameSeg(path.seg) && PrintableAll(body) && Encodable(|PrintPath(path) + PrintAll(body)|)
    case Device(path, body) => NameSeg(path.seg) && PrintableAll(body) && Encodable(|PrintPath(path) + PrintAll(body)|)
  }

  predicate PrintableAll(ts: seq<Term>)
    decreases ts, 0
  {
    ts == [] || (Printable(ts[0]) && PrintableAll(ts[1..]))
  }

  function Print(t: Term): (r: Bytes)
    requires Printable(t)
    decreases t, 1
  {
    match t
    case Name(seg, value) => [NAME_OP] + seg + PrintValue(value)
    case Scope(path, body) => WithPkgLength([SCOPE_OP], PrintPath(path) + PrintAll(body))
    case Device(path, body) => WithPkgLength([EXT_PREFIX, DEVICE_OP], PrintPath(path) + PrintAll(body))
  }

  function PrintAll(ts: seq<Term>): Bytes
    requires PrintableAll(ts)
    decreases ts, 1
  {
    if ts == [] then [] else Print(ts[0]) + PrintAll(ts[1..])
  }

  // ---- Parsing ----

  /** What was read, and what follows it. */
  datatype Parsed<+T> = Fail | Ok(value: T, rest: Bytes)

  /** How many bytes follow the lead byte of a constant. */
  function ConstWidth(lead: byte): nat {
    match lead case 0x0A => 1 case 0x0B => 2 case 0x0C => 4 case 0x0E => 8 case _ => 0
  }

  /** The least value that does not fit a narrower constant. */
  function LeastOf(width: nat): nat {
    match width case 1 => 2 case 2 => 0x100 case 4 => 0x1_0000 case _ => 0x1_0000_0000
  }

  /** A constant in its shortest form. */
  function ParseInteger(b: Bytes): (r: Parsed<nat>)
    ensures r.Ok? ==> |r.rest| < |b|
  {
    if b == [] then Fail
    else if b[0] < 2 then Ok(b[0], b[1..])
    else
      var n := ConstWidth(b[0]);
      if n == 0 || |b| < 1 + n then Fail
      else
        var v := FromLittleEndian(b[1..1 + n]);
        if v >= LeastOf(n) then Ok(v, b[1 + n..]) else Fail
  }

  function ParseIntegers(count: nat, b: Bytes): Parsed<seq<nat>> {
    if count == 0 then Ok([], b)
    else
      match ParseInteger(b)
      case Fail => Fail
      case Ok(v, rest) =>
        match ParseIntegers(count - 1, rest)
        case Fail => Fail
        case Ok(vs, rest') => Ok([v] + vs, rest')
  }

  /** Bits 4 and 5 of the lead byte of a longer PkgLength are reserved. */
  predicate ReservedClear(lead: byte, n: nat) { n == 1 || lead / 16 % 4 == 0 }

  /** A body with its PkgLength, which must be the shortest. */
  function ParsePkg(b: Bytes): (r: Parsed<Bytes>)
    ensures r.Ok? ==> |r.value| + |r.rest| < |b|
  {
    match ReadPkgLength(b)
    case None => Fail
    case Some((total, n)) =>
      if n <= total <= |b| && Encodable(total - n) && n == PkgWidth(total - n) && ReservedClear(b[0], n)
      then Ok(b[n..total], b[total..]) else Fail
  }

  function ParseText(b: Bytes): (r: Parsed<Bytes>)
    ensures r.Ok? ==> |r.rest| < |b|
  {
    if b == [] then Fail
    else if b[0] == 0 then Ok([], b[1..])
    else if b[0] >= 0x80 then Fail
    else match ParseText(b[1..])
         case Fail => Fail
         case Ok(s, rest) => Ok([b[0]] + s, rest)
  }

  function ParsePackage(body: Bytes): Option<Value> {
    if body == [] then None
    else match ParseIntegers(body[0], body[1..])
         case Ok(vs, rest) => if rest == [] then Some(Package(vs)) else None
         case Fail => None
  }

  function ParseBuffer(body: Bytes): Option<Value> {
    match ParseInteger(body)
    case Ok(len, bytes) => if |bytes| == len then Some(Buffer(bytes)) else None
    case Fail => None
  }

  function ParseValue(b: Bytes): (r: Parsed<Value>)
    ensures r.Ok? ==> |r.rest| < |b|
  {
    if b == [] then Fail
    else if b[0] == STRING_PREFIX then
      match ParseText(b[1..]) case Fail => Fail case Ok(s, rest) => Ok(Text(s), rest)
    else if b[0] == PACKAGE_OP || b[0] == BUFFER_OP then
      match ParsePkg(b[1..])
      case Fail => Fail
      case Ok(body, rest) =>
        match if b[0] == PACKAGE_OP then ParsePackage(body) else ParseBuffer(body)
        case None => Fail
        case Some(v) => Ok(v, rest)
    else
      match ParseInteger(b) case Fail => Fail case Ok(v, rest) => Ok(Integer(v), rest)
  }

  function ParsePath(b: Bytes): (r: Parsed<Path>)
    ensures r.Ok? ==> |r.rest| < |b|
  {
    var rooted := b != [] && b[0] == ROOT_CHAR;
    var at := if rooted then 1 else 0;
    if |b| < at + 4 || !NameSeg(b[at..at + 4]) then Fail
    else Ok(Path(rooted, b[at..at + 4]), b[at + 4..])
  }

  /** One term off the front. */
  function ParseTerm(b: Bytes): (r: Parsed<Term>)
    ensures r.Ok? ==> |r.rest| < |b|
    decreases |b|, 0
  {
    if b == [] then Fail
    else if b[0] == NAME_OP then
      if |b| < 5 || !NameSeg(b[1..5]) then Fail
      else match ParseValue(b[5..])
           case Fail => Fail
           case Ok(v, rest) => Ok(Name(b[1..5], v), rest)
    else
      var scope := b[0] == SCOPE_OP;
      var op := if scope then 1 else 2;
      if !scope && (|b| < 2 || b[0] != EXT_PREFIX || b[1] != DEVICE_OP) then Fail
      else
        match ParsePkg(b[op..])
        case Fail => Fail
        case Ok(body, rest) =>
          match ParsePath(body)
          case Fail => Fail
          case Ok(path, inner) =>
            match ParseTerms(inner)
            case None => Fail
            case Some(ts) => Ok(if scope then Scope(path, ts) else Device(path, ts), rest)
  }

  /** Terms to the end. */
  function ParseTerms(b: Bytes): Option<seq<Term>>
    decreases |b|, 1
  {
    if b == [] then Some([])
    else
      match ParseTerm(b)
      case Fail => None
      case Ok(t, rest) =>
        match ParseTerms(rest)
        case None => None
        case Some(ts) => Some([t] + ts)
  }

  // ---- Printing, then parsing ----

  lemma IntegerReadsBack(v: nat, rest: Bytes)
    requires PrintableInteger(v)
    ensures ParseInteger(PrintInteger(v) + rest) == Ok(v, rest)
  {
    var p := PrintInteger(v);
    var b := p + rest;
    assert b[|p|..] == rest && b[..|p|] == p;
    if v >= 2 {
      var n := |p| - 1;
      Powers();
      LittleEndianRoundTrip(v, n);
      assert b[1..1 + n] == LittleEndian(v, n);
    } else {
      assert b[1..] == rest;
    }
  }

  lemma {:induction false} IntegersReadBack(vs: seq<nat>, rest: Bytes)
    requires forall v :: v in vs ==> PrintableInteger(v)
    ensures ParseIntegers(|vs|, PrintIntegers(vs) + rest) == Ok(vs, rest)
  {
    hide PrintInteger, ParseInteger;
    if vs == [] {
      assert PrintIntegers(vs) + rest == rest;
    } else {
      IntegersReadBack(vs[1..], rest);
      IntegerReadsBack(vs[0], PrintIntegers(vs[1..]) + rest);
      assert PrintIntegers(vs) + rest == PrintInteger(vs[0]) + (PrintIntegers(vs[1..]) + rest);
      assert [vs[0]] + vs[1..] == vs;
    }
  }

  lemma LeadIsClear(body: nat)
    requires Encodable(body)
    ensures ReservedClear(PkgLength(body)[0], PkgWidth(body))
  {
    var n := PkgWidth(body);
    if n > 1 {
      var low := (body + n) % 16;
      DivMod((n - 1) * 4, low, 16, (n - 1) * 64 + low);
    }
  }

  lemma PkgReadsBack(body: Bytes, rest: Bytes)
    requires Encodable(|body|)
    ensures ParsePkg(PkgLength(|body|) + body + rest) == Ok(body, rest)
  {
    hide PkgLength, ReadPkgLength, ReservedClear;
    var p := PkgLength(|body|);
    var b := p + body + rest;
    PkgLengthCountsItself(|body|, body + rest);
    LeadIsClear(|body|);
    assert b == p + (body + rest);
    assert b[..|p|] == p && b[|p|..|p| + |body|] == body && b[|p| + |body|..] == rest;
  }

  lemma {:induction false} TextReadsBack(s: Bytes, rest: Bytes)
    requires forall i :: 0 <= i < |s| ==> 1 <= s[i] < 0x80
    ensures ParseText(s + [0] + rest) == Ok(s, rest)
  {
    var b := s + [0] + rest;
    if s == [] {
      assert b[1..] == rest;
    } else {
      TextReadsBack(s[1..], rest);
      assert b[1..] == s[1..] + [0] + rest;
      assert [s[0]] + s[1..] == s;
    }
  }

  lemma PackageReadsBack(es: seq<nat>, rest: Bytes)
    requires PrintableValue(Package(es))
    ensures ParseValue(PrintValue(Package(es)) + rest) == Ok(Package(es), rest)
  {
    hide ParseInteger, ParseIntegers, PrintIntegers, ParsePkg, PkgLength, ParseText;
    var b, body := PrintValue(Package(es)) + rest, [|es|] + PrintIntegers(es);
    PkgReadsBack(body, rest);
    assert b[1..] == PkgLength(|body|) + body + rest;
    IntegersReadBack(es, []);
    assert body[1..] == PrintIntegers(es) + [];
  }

  lemma BufferReadsBack(bytes: Bytes, rest: Bytes)
    requires PrintableValue(Buffer(bytes))
    ensures ParseValue(PrintValue(Buffer(bytes)) + rest) == Ok(Buffer(bytes), rest)
  {
    hide PrintInteger, ParseInteger, ParsePkg, PkgLength, ParseText;
    var b, body := PrintValue(Buffer(bytes)) + rest, PrintInteger(|bytes|) + bytes;
    PkgReadsBack(body, rest);
    assert b[1..] == PkgLength(|body|) + body + rest;
    IntegerReadsBack(|bytes|, bytes);
  }

  lemma ValueReadsBack(v: Value, rest: Bytes)
    requires PrintableValue(v)
    ensures ParseValue(PrintValue(v) + rest) == Ok(v, rest)
  {
    match v {
      case Integer(n) =>
        hide PrintInteger, ParseInteger, ParsePkg, ParseText;
        IntegerReadsBack(n, rest);
        IntegerLead(n, rest);
      case Text(s) =>
        hide PrintInteger, ParseInteger, ParsePkg, ParseText;
        TextReadsBack(s, rest);
        assert (PrintValue(v) + rest)[1..] == s + [0] + rest;
      case Package(es) =>
        hide ParseValue, PrintValue;
        PackageReadsBack(es, rest);
      case Buffer(bytes) =>
        hide ParseValue, PrintValue;
        BufferReadsBack(bytes, rest);
    }
  }

  lemma IntegerLead(v: nat, rest: Bytes)
    ensures var lead := (PrintInteger(v) + rest)[0];
            lead != STRING_PREFIX && lead != PACKAGE_OP && lead != BUFFER_OP
  {
  }

  lemma SegLead(s: Bytes)
    requires NameSeg(s)
    ensures |s| == 4 && s[0] != ROOT_CHAR
  {
  }

  lemma PathReadsBack(p: Path, rest: Bytes)
    requires NameSeg(p.seg)
    ensures ParsePath(PrintPath(p) + rest) == Ok(p, rest)
  {
    hide NameSeg;
    SegLead(p.seg);
    var b := PrintPath(p) + rest;
    if p.rooted {
      assert b[1..5] == p.seg && b[5..] == rest;
    } else {
      assert b[0..4] == p.seg && b[4..] == rest;
    }
  }

  /** Every printable term, whatever follows it, is read back as it was. */
  lemma {:induction false} TermReadsBack(t: Term, rest: Bytes)
    requires Printable(t)
    ensures ParseTerm(Print(t) + rest) == Ok(t, rest)
    decreases t, 0
  {
    hide ParsePkg, PkgLength, ParsePath, ParseValue, PrintValue;
    var b := Print(t) + rest;
    match t {
      case Name(seg, value) =>
        ValueReadsBack(value, rest);
        assert b[1..5] == seg && b[5..] == PrintValue(value) + rest;
      case Scope(path, ts) =>
        var body := PrintPath(path) + PrintAll(ts);
        PkgReadsBack(body, rest);
        assert b[1..] == PkgLength(|body|) + body + rest;
        PathReadsBack(path, PrintAll(ts));
        TermsReadBack(ts);
      case Device(path, ts) =>
        var body := PrintPath(path) + PrintAll(ts);
        PkgReadsBack(body, rest);
        assert b[2..] == PkgLength(|body|) + body + rest;
        PathReadsBack(path, PrintAll(ts));
        TermsReadBack(ts);
    }
  }

  lemma {:induction false} TermsReadBack(ts: seq<Term>)
    requires PrintableAll(ts)
    ensures ParseTerms(PrintAll(ts)) == Some(ts)
    decreases ts, 0
  {
    hide ParseTerm, Print;
    if ts != [] {
      TermReadsBack(ts[0], PrintAll(ts[1..]));
      TermsReadBack(ts[1..]);
      assert [ts[0]] + ts[1..] == ts;
    }
  }

  // ---- Parsing, then printing ----

  lemma IntegerInRange(b: Bytes)
    requires ParseInteger(b).Ok?
    ensures PrintableInteger(ParseInteger(b).value)
  {
    hide FromLittleEndian, PrintInteger, Power256;
    var n := ConstWidth(b[0]);
    if b[0] >= 2 {
      FromLittleEndianRoundTrip(b[1..1 + n]);
      Powers();
    }
  }

  lemma IntegerPrintsBack(b: Bytes)
    requires ParseInteger(b).Ok?
    ensures PrintableInteger(ParseInteger(b).value) && b == PrintInteger(ParseInteger(b).value) + ParseInteger(b).rest
  {
    hide FromLittleEndian, LittleEndian, PrintableInteger, Power256;
    IntegerInRange(b);
    var n := ConstWidth(b[0]);
    if b[0] < 2 {
      assert b == [b[0]] + b[1..];
    } else {
      FromLittleEndianRoundTrip(b[1..1 + n]);
      Powers();
      assert b == [b[0]] + b[1..1 + n] + b[1 + n..];
    }
  }

  lemma {:induction false} IntegersPrintBack(count: nat, b: Bytes)
    requires ParseIntegers(count, b).Ok?
    ensures var Ok(vs, rest) := ParseIntegers(count, b);
            |vs| == count && (forall v :: v in vs ==> PrintableInteger(v)) && b == PrintIntegers(vs) + rest
  {
    hide ParseInteger, PrintInteger;
    if count > 0 {
      IntegerPrintsBack(b);
      var Ok(v, tail) := ParseInteger(b);
      IntegersPrintBack(count - 1, tail);
      var Ok(vs, rest) := ParseIntegers(count - 1, tail);
      assert ([v] + vs)[1..] == vs;
      assert PrintIntegers([v] + vs) + rest == PrintInteger(v) + (PrintIntegers(vs) + rest);
    }
  }

  /** A length in the shortest form, reserved bits clear, is the one printed. */
  lemma LengthPrintsBack(b: Bytes, total: nat, n: nat)
    requires ReadPkgLength(b) == Some((total, n)) && n <= total && Encodable(total - n)
    requires n == PkgWidth(total - n) && ReservedClear(b[0], n)
    ensures n <= |b| && PkgLength(total - n) == b[..n]
  {
    hide FromLittleEndian, LittleEndian;
    if n == 1 {
      assert b[..1] == [b[0]];
    } else {
      var low, high := b[0] % 16, FromLittleEndian(b[1..n]);
      FromLittleEndianRoundTrip(b[1..n]);
      DivMod(high, low, 16, total);
      assert b[0] == (n - 1) * 64 + low;
      assert b[..n] == [b[0]] + b[1..n];
    }
  }

  lemma PkgPrintsBack(b: Bytes)
    requires ParsePkg(b).Ok?
    ensures var Ok(body, rest) := ParsePkg(b);
            Encodable(|body|) && b == PkgLength(|body|) + body + rest
  {
    hide PkgLength, ReadPkgLength, ReservedClear;
    var (total, n) := ReadPkgLength(b).value;
    LengthPrintsBack(b, total, n);
    assert b == b[..n] + b[n..total] + b[total..];
  }

  lemma {:induction false} TextPrintsBack(b: Bytes)
    requires ParseText(b).Ok?
    ensures var Ok(s, rest) := ParseText(b);
            (forall i :: 0 <= i < |s| ==> 1 <= s[i] < 0x80) && b == s + [0] + rest
  {
    if b[0] == 0 {
      assert b == [] + [0] + b[1..];
    } else {
      TextPrintsBack(b[1..]);
      var Ok(s, rest) := ParseText(b[1..]);
      assert [b[0]] + s + [0] + rest == [b[0]] + (s + [0] + rest);
    }
  }

  lemma BodyPrintsBack(b: Bytes)
    requires ParseValue(b).Ok? && (b[0] == PACKAGE_OP || b[0] == BUFFER_OP)
    ensures PrintableValue(ParseValue(b).value) && b == PrintValue(ParseValue(b).value) + ParseValue(b).rest
  {
    hide ParseInteger, PrintInteger, ParseIntegers, PrintIntegers, ParsePkg, PkgLength, ParseText;
    var Ok(body, rest) := ParsePkg(b[1..]);
    PkgPrintsBack(b[1..]);
    assert b == [b[0]] + b[1..];
    if b[0] == PACKAGE_OP {
      IntegersPrintBack(body[0], body[1..]);
      var es := ParseIntegers(body[0], body[1..]).value;
      assert body == [body[0]] + PrintIntegers(es);
    } else {
      IntegerPrintsBack(body);
    }
  }

  lemma ValuePrintsBack(b: Bytes)
    requires ParseValue(b).Ok?
    ensures PrintableValue(ParseValue(b).value) && b == PrintValue(ParseValue(b).value) + ParseValue(b).rest
  {
    if b[0] == PACKAGE_OP || b[0] == BUFFER_OP {
      BodyPrintsBack(b);
    } else {
      hide ParseInteger, PrintInteger, ParsePkg, ParseText;
      if b[0] == STRING_PREFIX {
        TextPrintsBack(b[1..]);
        var s := ParseText(b[1..]).value;
        assert b == [STRING_PREFIX] + s + [0] + ParseText(b[1..]).rest;
      } else {
        IntegerPrintsBack(b);
      }
    }
  }

  lemma PathPrintsBack(b: Bytes)
    requires ParsePath(b).Ok?
    ensures var Ok(p, rest) := ParsePath(b);
            NameSeg(p.seg) && b == PrintPath(p) + rest
  {
    hide NameSeg;
    var at := if b[0] == ROOT_CHAR then 1 else 0;
    assert b == b[..at] + b[at..at + 4] + b[at + 4..];
    assert at == 0 ==> b == b[0..4] + b[4..];
  }

  /** A scope's or device's header and path print back, around whatever its body is. */
  lemma ContainerPrintsBack(b: Bytes, op: nat, path: Path, inner: Bytes)
    requires op <= |b| && ParsePkg(b[op..]).Ok? && ParsePath(ParsePkg(b[op..]).value) == Ok(path, inner)
    ensures NameSeg(path.seg) && Encodable(|PrintPath(path) + inner|)
    ensures b == WithPkgLength(b[..op], PrintPath(path) + inner) + ParsePkg(b[op..]).rest
  {
    hide ParsePkg, PkgLength, ParsePath, NameSeg;
    PkgPrintsBack(b[op..]);
    PathPrintsBack(ParsePkg(b[op..]).value);
    assert b == b[..op] + b[op..];
  }

  /** Whatever parses is exactly what its tree prints as, followed by the rest. */
  lemma {:induction false} TermPrintsBack(b: Bytes)
    requires ParseTerm(b).Ok?
    ensures Printable(ParseTerm(b).value) && b == Print(ParseTerm(b).value) + ParseTerm(b).rest
    decreases |b|, 0
  {
    hide ParsePkg, PkgLength, ParsePath, ParseValue, PrintValue, PrintableValue, NameSeg;
    if b[0] == NAME_OP {
      ValuePrintsBack(b[5..]);
      assert b == [NAME_OP] + b[1..5] + b[5..];
    } else {
      var op := if b[0] == SCOPE_OP then 1 else 2;
      var Ok(body, rest) := ParsePkg(b[op..]);
      var Ok(path, inner) := ParsePath(body);
      TermsPrintBack(inner);
      var ts := ParseTerms(inner).value;
      hide PrintAll, PrintableAll, ParseTerms, PrintPath;
      ContainerPrintsBack(b, op, path, inner);
      assert b[..op] == if op == 1 then [SCOPE_OP] else [EXT_PREFIX, DEVICE_OP];
    }
  }

  lemma {:induction false} TermsPrintBack(b: Bytes)
    requires ParseTerms(b).Some?
    ensures PrintableAll(ParseTerms(b).value) && PrintAll(ParseTerms(b).value) == b
    decreases |b|, 1
  {
    hide ParseTerm, Print, Printable;
    if b != [] {
      TermPrintsBack(b);
      var Ok(t, rest) := ParseTerm(b);
      TermsPrintBack(rest);
      var ts := ParseTerms(rest).value;
      assert ([t] + ts)[1..] == ts;
    }
  }

  // ---- The standard's bytes ----

  lemma OneByte(v: nat)
    ensures LittleEndian(v, 1) == [v % 256]
  {
    assert LittleEndian(v / 256, 0) == [];
  }

  lemma TwoBytes(v: nat)
    ensures LittleEndian(v, 2) == [v % 256, v / 256 % 256]
  {
    OneByte(v / 256);
    assert LittleEndian(v, 2) == [v % 256] + LittleEndian(v / 256, 1);
  }

  lemma FourBytes(v: nat)
    ensures LittleEndian(v, 4) == [v % 256, v / 256 % 256, v / 256 / 256 % 256, v / 256 / 256 / 256 % 256]
  {
    var w := v / 256;
    TwoBytes(w / 256);
    assert LittleEndian(v, 4) == [v % 256] + LittleEndian(w, 3);
    assert LittleEndian(w, 3) == [w % 256] + LittleEndian(w / 256, 2);
  }

  /** Constants: ZeroOp and OneOp, then byte, word, double word and quad word, low byte first. */
  lemma IntegerBytes(v: nat)
    ensures v < 2 ==> PrintInteger(v) == [v]
    ensures 2 <= v < 0x100 ==> PrintInteger(v) == [0x0A, v]
    ensures 0x100 <= v < 0x1_0000 ==> PrintInteger(v) == [0x0B, v % 256, v / 256]
    ensures 0x1_0000 <= v < 0x1_0000_0000 ==>
              PrintInteger(v) == [0x0C, v % 256, v / 256 % 256, v / 256 / 256 % 256, v / 256 / 256 / 256 % 256]
    ensures v >= 0x1_0000_0000 ==> PrintInteger(v) == [0x0E] + LittleEndian(v, 8)
  {
    hide LittleEndian;
    OneByte(v);
    TwoBytes(v);
    FourBytes(v);
  }

  /** Lengths: one byte below 64, else the count of further bytes above the low four bits. */
  lemma PkgLengthBytes(body: nat)
    requires Encodable(body)
    ensures body < 63 ==> PkgLength(body) == [body + 1]
    ensures 63 <= body && body + 2 < 0x1000 ==> PkgLength(body) == [0x40 + (body + 2) % 16, (body + 2) / 16]
    ensures body + 2 >= 0x1000 && body + 3 < 0x10_0000 ==> |PkgLength(body)| == 3 && PkgLength(body)[0] == 0x80 + (body + 3) % 16
    ensures body + 3 >= 0x10_0000 ==> |PkgLength(body)| == 4 && PkgLength(body)[0] == 0xC0 + (body + 4) % 16
  {
    if 63 <= body && body + 2 < 0x1000 {
      OneByte((body + 2) / 16);
    }
  }

  /** The operators of strings, buffers and packages. */
  lemma ValueBytes(v: Value)
    requires PrintableValue(v)
    ensures match v
            case Integer(n) => PrintValue(v) == PrintInteger(n)
            case Text(s) => PrintValue(v) == [0x0D] + s + [0x00]
            case Buffer(b) => PrintValue(v) == [0x11] + PkgLength(|PrintInteger(|b|)| + |b|) + PrintInteger(|b|) + b
            case Package(es) => PrintValue(v) == [0x12] + PkgLength(1 + |PrintIntegers(es)|) + [|es|] + PrintIntegers(es)
  {
    hide PkgLength, PrintInteger, PrintIntegers;
  }

  /** And of names, scopes and devices; a path from the root starts with a backslash. */
  lemma TermBytes(t: Term)
    requires Printable(t)
    ensures match t
            case Name(seg, value) => Print(t) == [0x08] + seg + PrintValue(value)
            case Scope(path, body) =>
              var inner := (if path.rooted then [0x5C] else []) + path.seg + PrintAll(body);
              Print(t) == [0x10] + PkgLength(|inner|) + inner
            case Device(path, body) =>
              var inner := (if path.rooted then [0x5C] else []) + path.seg + PrintAll(body);
              Print(t) == [0x5B, 0x82] + PkgLength(|inner|) + inner
  {
    hide PkgLength, PrintValue, PrintAll;
  }
}
