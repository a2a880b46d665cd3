/** IPv4 addresses and CIDR prefixes as text and as numbers (section 3.1 of RFC 4632). */
module Addresses {
  import opened Wrappers

  // ---------------------------------------------------------------- decimal numbers

  predicate IsDigit(c: char) {
    '0' <= c <= '9'
  }

  predicate IsNumeral(s: string) {
    s != "" && forall i :: 0 <= i < |s| ==> IsDigit(s[i])
  }

  /** `%d`. */
  function Decimal(n: nat): string {
    if n < 10 then [('0' as int + n) as char]
    else Decimal(n / 10) + [('0' as int + n % 10) as char]
  }

  function ValueOf(s: string): nat
    requires IsNumeral(s)
  {
    var last := s[|s| - 1] as int - '0' as int;
    if |s| == 1 then last else 10 * ValueOf(s[..|s| - 1]) + last
  }

  lemma {:induction false} DecimalValue(n: nat)
    ensures IsNumeral(Decimal(n)) && ValueOf(Decimal(n)) == n
    ensures n > 0 ==> Decimal(n)[0] != '0'
    ensures n < 10 ==> |Decimal(n)| == 1
  {
    if n >= 10 {
      DecimalValue(n / 10);
      var s := Decimal(n);
      assert s[..|s| - 1] == Decimal(n / 10);
    }
  }

  // ---------------------------------------------------------------- splitting text

  /** `strings.Cut`: the text before the first `sep`, and the text after it. */
  function Cut(s: string, sep: char): (r: Option<(string, string)>)
    ensures r.Some? ==> s == r.value.0 + [sep] + r.value.1 && sep !in r.value.0
    ensures r.None? ==> sep !in s
  {
    if s == "" then None
    else if s[0] == sep then Some(("", s[1..]))
    else
      var r := Cut(s[1..], sep);
      if r.None? then None else Some(([s[0]] + r.value.0, r.value.1))
  }

  lemma {:induction false} CutOf(a: string, sep: char, b: string)
    requires sep !in a
    ensures Cut(a + [sep] + b, sep) == Some((a, b))
  {
    var s := a + [sep] + b;
    if a == "" {
      assert s[1..] == b;
    } else {
      assert s[1..] == a[1..] + [sep] + b;
      CutOf(a[1..], sep, b);
      assert [s[0]] + a[1..] == a;
    }
  }

  // ---------------------------------------------------------------- addresses

  /** The address as a 32-bit number. */
  type Ip = nat

  /** One field of a dotted quad: no sign, no leading zero, at most 255 (`netip.ParseAddr`). */
  function ParseOctet(s: string): (r: Option<nat>)
    ensures r.Some? ==> r.value < 256
  {
    if !IsNumeral(s) || |s| > 3 || (|s| > 1 && s[0] == '0') || ValueOf(s) > 255 then None else Some(ValueOf(s))
  }

  function OctetsToIp(a: nat, b: nat, c: nat, d: nat): Ip {
    ((a * 256 + b) * 256 + c) * 256 + d
  }

  /** `net.ParseIP` on IPv4 text. */
  function ParseIp(s: string): Option<Ip> {
    match Cut(s, '.')
    case None => None
    case Some((a, rest)) =>
      match Cut(rest, '.')
      case None => None
      case Some((b, rest')) =>
        match Cut(rest', '.')
        case None => None
        case Some((c, d)) =>
          var pa, pb, pc, pd := ParseOctet(a), ParseOctet(b), ParseOctet(c), ParseOctet(d);
          if pa.None? || pb.None? || pc.None? || pd.None? then None
          else Some(OctetsToIp(pa.value, pb.value, pc.value, pd.value))
  }

  function Dotted(a: nat, b: nat, c: nat, d: nat): string {
    Decimal(a) + "." + (Decimal(b) + "." + (Decimal(c) + "." + Decimal(d)))
  }

  lemma OctetRoundTrip(n: nat)
    requires n < 256
    ensures ParseOctet(Decimal(n)) == Some(n)
    ensures '.' !in Decimal(n)
  {
    DecimalValue(n);
    DecimalValue(n / 10);
    DecimalValue(n / 100);
    assert n >= 10 ==> |Decimal(n)| == |Decimal(n / 10)| + 1;
    assert n >= 100 ==> |Decimal(n / 10)| == |Decimal(n / 100)| + 1;
    assert !IsDigit('.');
  }

  /** Printing then parsing gives the same octets back. */
  lemma AddressRoundTrip(a: nat, b: nat, c: nat, d: nat)
    requires a < 256 && b < 256 && c < 256 && d < 256
    ensures ParseIp(Dotted(a, b, c, d)) == Some(OctetsToIp(a, b, c, d))
  {
    OctetRoundTrip(a);
    OctetRoundTrip(b);
    OctetRoundTrip(c);
    OctetRoundTrip(d);
    var cd := Decimal(c) + "." + Decimal(d);
    var bcd := Decimal(b) + "." + cd;
    CutOf(Decimal(a), '.', bcd);
    CutOf(Decimal(b), '.', cd);
    CutOf(Decimal(c), '.', Decimal(d));
    assert Dotted(a, b, c, d) == Decimal(a) + ['.'] + bcd;
  }

  /** Decimal text without a leading zero is how its number is printed. */
  lemma {:induction false} NumeralIsDecimal(s: string)
    requires IsNumeral(s) && (|s| > 1 ==> s[0] != '0')
    ensures Decimal(ValueOf(s)) == s
    ensures |s| > 1 ==> ValueOf(s) >= 10
  {
    if |s| > 1 {
      var rest, last := s[..|s| - 1], s[|s| - 1] as int - '0' as int;
      assert IsDigit(s[|s| - 1]);
      NumeralIsDecimal(rest);
      assert ValueOf(rest) > 0 by {
        if |rest| == 1 {
          assert IsDigit(s[0]);
        }
      }
      assert ValueOf(s) / 10 == ValueOf(rest) && ValueOf(s) % 10 == last;
      assert s == rest + [s[|s| - 1]];
    }
  }

  /** Exactly which text is an address: four numbers below 256 as they are printed, with dots between. */
  lemma ParsesExactly(s: string, ip: Ip)
    ensures ParseIp(s) == Some(ip) <==> exists a: nat, b: nat, c: nat, d: nat :: IsQuad(s, ip, a, b, c, d)
  {
    if ParseIp(s) == Some(ip) {
      var (a, rest) := Cut(s, '.').value;
      var (b, rest') := Cut(rest, '.').value;
      var (c, d) := Cut(rest', '.').value;
      NumeralIsDecimal(a);
      NumeralIsDecimal(b);
      NumeralIsDecimal(c);
      NumeralIsDecimal(d);
      assert s == a + "." + (b + "." + (c + "." + d));
      assert IsQuad(s, ip, ValueOf(a), ValueOf(b), ValueOf(c), ValueOf(d));
    }
    forall a: nat, b: nat, c: nat, d: nat | IsQuad(s, ip, a, b, c, d) ensures ParseIp(s) == Some(ip) {
      AddressRoundTrip(a, b, c, d);
    }
  }

  predicate IsQuad(s: string, ip: Ip, a: nat, b: nat, c: nat, d: nat) {
    && a < 256 && b < 256 && c < 256 && d < 256
    && s == Dotted(a, b, c, d) && ip == a * 0x100_0000 + b * 0x1_0000 + c * 0x100 + d
  }

  // ---------------------------------------------------------------- prefixes

  datatype Cidr = Cidr(base: Ip, bits: nat)

  function Pow2(n: nat): nat {
    if n == 0 then 1 else 2 * Pow2(n - 1)
  }

  /** How many addresses a prefix of this length covers. */
  function BlockSize(bits: nat): (n: nat)
    ensures n > 0
  {
    PowPositive(32 - if bits <= 32 then bits else 32);
    Pow2(32 - if bits <= 32 then bits else 32)
  }

  lemma BlockSizes()
    ensures BlockSize(32) == 1 && BlockSize(16) == 0x1_0000 && BlockSize(8) == 0x100_0000
  {
    assert Pow2(4) == 16;
    assert Pow2(8) == 256;
    assert Pow2(12) == 4096;
    assert Pow2(16) == 0x1_0000;
    assert Pow2(20) == 0x10_0000;
    assert Pow2(24) == 0x100_0000;
  }

  lemma PowPositive(n: nat)
    ensures Pow2(n) > 0
  {
  }

  /** `IPNet.Contains`, and the kernel's prefix match. */
  predicate Contains(c: Cidr, ip: Ip) {
    Div(c.base, BlockSize(c.bits)) == Div(ip, BlockSize(c.bits))
  }

  function Div(a: nat, n: nat): nat
    requires n > 0
  {
    a / n
  }

  function Times(a: nat, b: nat): nat {
    Scale(0, a, b);
    a * b
  }

  /** The kernel stores a prefix with its host bits cleared. */
  function Masked(c: Cidr): Cidr {
    Cidr(Times(Div(c.base, BlockSize(c.bits)), BlockSize(c.bits)), c.bits)
  }

  /** `net.ParseCIDR` on IPv4 text. */
  function ParseCidr(s: string): (r: Option<Cidr>)
    ensures r.Some? ==> r.value.bits <= 32
  {
    match Cut(s, '/')
    case None => None
    case Some((ip, bits)) =>
      if ParseIp(ip).None? || !IsNumeral(bits) || ValueOf(bits) > 32 then None
      else Some(Cidr(ParseIp(ip).value, ValueOf(bits)))
  }

  lemma MaskedContains(c: Cidr, ip: Ip)
    ensures Contains(Masked(c), ip) <==> Contains(c, ip)
    ensures Masked(Masked(c)) == Masked(c)
  {
    var n := BlockSize(c.bits);
    Quotient(c.base / n * n, n, c.base / n);
  }

  /** A prefix covers the addresses from its first one, which `Masked` names, up to the end of its block. */
  lemma ContainsExactly(c: Cidr, ip: Ip)
    ensures Contains(c, ip) <==> Masked(c).base <= ip < Masked(c).base + BlockSize(c.bits)
  {
    var n := BlockSize(c.bits);
    var q := c.base / n;
    if q * n <= ip < q * n + n {
      Quotient(ip, n, q);
    }
  }

  /** Quotients are unique. */
  lemma Quotient(x: int, n: nat, q: int)
    requires n > 0 && q * n <= x < (q + 1) * n
    ensures x / n == q
  {
    var p := x / n;
    assert p * n <= x < (p + 1) * n;
    if p < q {
      Scale(p + 1, q, n);
    } else if q < p {
      Scale(q + 1, p, n);
    }
  }

  lemma Scale(a: int, b: int, n: nat)
    requires a <= b
    ensures a * n <= b * n
  {
  }

  lemma HostContains(base: Ip, ip: Ip)
    ensures Contains(Cidr(base, 32), ip) <==> base == ip
    ensures Masked(Cidr(base, 32)) == Cidr(base, 32)
  {
  }

  /** Address text is digits and dots. */
  lemma AddressText(s: string)
    requires ParseIp(s).Some?
    ensures s != "" && forall c :: c in s ==> IsDigit(c) || c == '.'
  {
    var (a, rest) := Cut(s, '.').value;
    var (b, rest') := Cut(rest, '.').value;
    var (c, d) := Cut(rest', '.').value;
    assert IsNumeral(a) && IsNumeral(b) && IsNumeral(c) && IsNumeral(d);
  }

  /** A parsed address with a prefix length appended parses back to both. */
  lemma CidrText(ip: string, text: string, bits: nat)
    requires ParseIp(ip).Some? && IsNumeral(text) && ValueOf(text) == bits <= 32
    ensures ParseCidr(ip + ['/'] + text) == Some(Cidr(ParseIp(ip).value, bits))
  {
    AddressText(ip);
    assert !IsDigit('/');
    CutOf(ip, '/', text);
  }

  /** Exactly which text is a prefix: an address, a slash and a number up to 32. */
  lemma PrefixesExactly(s: string, c: Cidr)
    ensures ParseCidr(s) == Some(c) <==> exists ip: string, text: string :: IsPrefix(s, c, ip, text)
  {
    if ParseCidr(s) == Some(c) {
      var (ip, text) := Cut(s, '/').value;
      assert IsPrefix(s, c, ip, text);
    }
    forall ip: string, text: string | IsPrefix(s, c, ip, text) ensures ParseCidr(s) == Some(c) {
      CidrText(ip, text, c.bits);
    }
  }

  predicate IsPrefix(s: string, c: Cidr, ip: string, text: string) {
    && s == ip + ['/'] + text && ParseIp(ip) == Some(c.base)
    && IsNumeral(text) && ValueOf(text) == c.bits && c.bits <= 32
  }

  lemma TwoDigits(a: char, b: char)
    requires IsDigit(a) && IsDigit(b)
    ensures IsNumeral([a, b]) && ValueOf([a, b]) == 10 * (a as int - '0' as int) + (b as int - '0' as int)
  {
    assert [a, b][..1] == [a];
    assert ValueOf([a]) == a as int - '0' as int;
  }

  lemma HostCidr(ip: string)
    requires ParseIp(ip).Some?
    ensures ParseCidr(ip + "/32") == Some(Cidr(ParseIp(ip).value, 32))
  {
    TwoDigits('3', '2');
    CidrText(ip, ['3', '2'], 32);
    assert ip + "/32" == ip + ['/'] + ['3', '2'];
  }

  lemma SixteenCidr(ip: string)
    requires ParseIp(ip).Some?
    ensures ParseCidr(ip + "/16") == Some(Cidr(ParseIp(ip).value, 16))
  {
    TwoDigits('1', '6');
    CidrText(ip, ['1', '6'], 16);
    assert ip + "/16" == ip + ['/'] + ['1', '6'];
  }

  /** Text in front of a slash that is no address makes no prefix. */
  lemma NoCidr(ip: string, bits: string)
    requires ParseIp(ip).None? && '/' !in bits
    ensures ParseCidr(ip + "/" + bits).None?
  {
    match Cut(ip, '/')
    case None => CutOf(ip, '/', bits);
    case Some((a, b)) =>
      CutOf(a, '/', b + "/" + bits);
      assert ip + "/" + bits == a + ['/'] + (b + "/" + bits);
      assert (b + "/" + bits)[|b|] == '/';
      assert !IsDigit('/');
  }

  // ---------------------------------------------------------------- white space

  predicate IsSpace(c: char) {
    c == ' ' || 9 <= c as int <= 13
  }

  function TrimLeft(s: string): string {
    if s != "" && IsSpace(s[0]) then TrimLeft(s[1..]) else s
  }

  function TrimRight(s: string): string {
    if s != "" && IsSpace(s[|s| - 1]) then TrimRight(s[..|s| - 1]) else s
  }

  /** `strings.TrimSpace`, on ASCII. */
  function TrimSpace(s: string): string {
    TrimRight(TrimLeft(s))
  }

  predicate White(c: char) {
    c in [' ', '\t', '\n', '\r', 11 as char, 12 as char]
  }

  predicate Blank(s: string) {
    forall c :: c in s ==> White(c)
  }

  lemma {:induction false} LeftIsBlank(s: string) returns (left: string)
    ensures Blank(left) && s == left + TrimLeft(s)
    ensures TrimLeft(s) != "" ==> !White(TrimLeft(s)[0])
  {
    left := "";
    if s != "" && IsSpace(s[0]) {
      var rest := LeftIsBlank(s[1..]);
      left := [s[0]] + rest;
    }
  }

  lemma {:induction false} RightIsBlank(s: string) returns (right: string)
    ensures Blank(right) && s == TrimRight(s) + right
    ensures TrimRight(s) != "" ==> !White(TrimRight(s)[|TrimRight(s)| - 1])
  {
    right := "";
    if s != "" && IsSpace(s[|s| - 1]) {
      var rest := RightIsBlank(s[..|s| - 1]);
      right := rest + [s[|s| - 1]];
    }
  }

  /** Trimming takes the white space off both ends, and all of it. */
  lemma TrimsExactly(s: string) returns (left: string, right: string)
    ensures Blank(left) && Blank(right) && s == left + TrimSpace(s) + right
    ensures var t := TrimSpace(s); t != "" ==> !White(t[0]) && !White(t[|t| - 1])
  {
    left := LeftIsBlank(s);
    right := RightIsBlank(TrimLeft(s));
    assert TrimSpace(s) != "" ==> TrimSpace(s)[0] == TrimLeft(s)[0];
  }

  lemma AddressIsTrimmed(s: string)
    requires ParseIp(s).Some?
    ensures TrimSpace(s) == s
  {
    AddressText(s);
    assert s[0] in s && s[|s| - 1] in s;
  }
}
