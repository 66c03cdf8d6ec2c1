/**
 IPv4 addresses as 32-bit numbers and as dotted-quad text, read and written the way Rust's
 `Ipv4Addr` does: at most three digits an octet, no leading zero, at most fifteen characters.
 Also `u32` text, where a leading plus sign and leading zeros are accepted.
 */
module Ipv4 {
  import opened Wrappers

  const U32_LIMIT := 0x1_0000_0000

  type Ip = n: int | 0 <= n < U32_LIMIT

  predicate IsDigit(c: char) { '0' <= c <= '9' }

  function Digit(n: nat): (c: char)
    requires n < 10
    ensures IsDigit(c) && c as int - '0' as int == n
  {
    '0' + n as char
  }

  function DigitValue(c: char): (n: nat)
    requires IsDigit(c)
    ensures n < 10 && Digit(n) == c
  {
    c as int - '0' as int
  }

  /** The number of digits a text starts with. */
  function DigitRun(t: string): (n: nat)
    ensures n <= |t|
    ensures forall i | 0 <= i < n :: IsDigit(t[i])
    ensures n < |t| ==> !IsDigit(t[n])
  {
    if t != [] && IsDigit(t[0]) then 1 + DigitRun(t[1..]) else 0
  }

  function DecimalValue(t: string): nat
    requires forall i | 0 <= i < |t| :: IsDigit(t[i])
  {
    if t == [] then 0 else 10 * DecimalValue(t[..|t| - 1]) + DigitValue(t[|t| - 1])
  }

  function OctetText(n: nat): string
    requires n < 256
  {
    if n < 10 then [Digit(n)]
    else if n < 100 then [Digit(n / 10), Digit(n % 10)]
    else [Digit(n / 100), Digit(n / 10 % 10), Digit(n % 10)]
  }

  function ReadOctet(t: string): Option<(nat, string)> {
    var n := DigitRun(t);
    if n == 0 || n > 3 || (n > 1 && t[0] == '0') then None
    else
      var v := DecimalValue(t[..n]);
      if v > 255 then None else Some((v, t[n..]))
  }

  predicate AreOctets(ns: seq<nat>) { forall i | 0 <= i < |ns| :: ns[i] < 256 }

  /** Reads `k` groups of a dot followed by an octet. */
  function ReadDots(t: string, k: nat): (r: Option<(seq<nat>, string)>)
    ensures r.Some? ==> |r.value.0| == k && AreOctets(r.value.0)
  {
    if k == 0 then Some(([], t))
    else if t == [] || t[0] != '.' then None
    else match ReadOctet(t[1..]) {
           case None => None
           case Some((n, rest)) =>
             match ReadDots(rest, k - 1) {
               case None => None
               case Some((ns, end)) => Some(([n] + ns, end))
             }
         }
  }

  function DotsText(ns: seq<nat>): string
    requires AreOctets(ns)
  {
    if ns == [] then [] else "." + OctetText(ns[0]) + DotsText(ns[1..])
  }

  function FromOctets(a: nat, b: nat, c: nat, d: nat): Ip
    requires a < 256 && b < 256 && c < 256 && d < 256
  {
    0x100_0000 * a + 0x1_0000 * b + 0x100 * c + d
  }

  function Display(ip: Ip): string {
    OctetText(ip / 0x100_0000) + DotsText([ip / 0x1_0000 % 256, ip / 0x100 % 256, ip % 256])
  }

  function Parse(t: string): Option<Ip> {
    if |t| > 15 then None
    else match ReadOctet(t) {
           case None => None
           case Some((a, dots)) =>
             match ReadDots(dots, 3) {
               case None => None
               case Some((ns, end)) =>
                 if end == [] then Some(FromOctets(a, ns[0], ns[1], ns[2])) else None
             }
         }
  }

  lemma DigitRunOf(digits: string, rest: string)
    requires forall i | 0 <= i < |digits| :: IsDigit(digits[i])
    requires rest == [] || !IsDigit(rest[0])
    ensures DigitRun(digits + rest) == |digits|
  {
    var t := digits + rest;
    assert |digits| < |t| ==> t[|digits|] == rest[0];
    assert forall i | 0 <= i < |digits| :: t[i] == digits[i];
  }

  lemma DecimalValueShort(t: string)
    requires 1 <= |t| <= 3 && forall i | 0 <= i < |t| :: IsDigit(t[i])
    ensures |t| == 1 ==> DecimalValue(t) == DigitValue(t[0])
    ensures |t| == 2 ==> DecimalValue(t) == 10 * DigitValue(t[0]) + DigitValue(t[1])
    ensures |t| == 3 ==> DecimalValue(t) == 100 * DigitValue(t[0]) + 10 * DigitValue(t[1]) + DigitValue(t[2])
  {
    if |t| == 1 {
      assert t[..0] == [];
    } else if |t| == 2 {
      DecimalValueShort(t[..1]);
    } else {
      DecimalValueShort(t[..2]);
    }
  }

  lemma OctetTextValue(n: nat)
    requires n < 256
    ensures var t := OctetText(n);
            && 1 <= |t| <= 3
            && (forall i | 0 <= i < |t| :: IsDigit(t[i]))
            && (|t| > 1 ==> t[0] != '0')
            && DecimalValue(t) == n
  {
    DecimalValueShort(OctetText(n));
    hide DecimalValue;
  }

  /** Writing an octet and reading it back gives the octet and leaves the rest. */
  lemma ReadOctetText(n: nat, rest: string)
    requires n < 256
    requires rest == [] || !IsDigit(rest[0])
    ensures ReadOctet(OctetText(n) + rest) == Some((n, rest))
  {
    hide OctetText, DigitRun, DecimalValue;
    var text := OctetText(n);
    OctetTextValue(n);
    DigitRunOf(text, rest);
    assert (text + rest)[..|text|] == text && (text + rest)[|text|..] == rest;
  }

  /** The octet reader accepts only the text the writer produces. */
  lemma ReadOctetOnlyText(t: string)
    requires ReadOctet(t).Some?
    ensures var (v, rest) := ReadOctet(t).value; v < 256 && t == OctetText(v) + rest
  {
    var n := DigitRun(t);
    DecimalValueShort(t[..n]);
    var (v, rest) := ReadOctet(t).value;
    assert t == t[..n] + t[n..];
    assert t[..n] == OctetText(v);
  }

  lemma OctetsOfIp(a: nat, b: nat, c: nat, d: nat)
    requires a < 256 && b < 256 && c < 256 && d < 256
    ensures var ip := FromOctets(a, b, c, d);
            ip / 0x100_0000 == a && ip / 0x1_0000 % 256 == b && ip / 0x100 % 256 == c && ip % 256 == d
  {
    var ip: int := FromOctets(a, b, c, d);
    assert ip / 0x100_0000 == a;
    assert ip / 0x1_0000 == 0x100 * a + b;
    assert ip / 0x100 == 0x1_0000 * a + 0x100 * b + c;
    LowOctet(a, b);
    LowOctet(0x100 * a + b, c);
    LowOctet(0x1_0000 * a + 0x100 * b + c, d);
  }

  lemma LowOctet(high: nat, low: nat)
    requires low < 256
    ensures (0x100 * high + low) % 256 == low
  {
  }

  lemma OctetsJoin(ip: Ip)
    ensures ip / 0x100_0000 < 256
    ensures ip == FromOctets(ip / 0x100_0000, ip / 0x1_0000 % 256, ip / 0x100 % 256, ip % 256)
  {
    var x, y := ip / 0x100, ip / 0x1_0000;
    assert ip == 0x100 * x + ip % 256;
    assert x == 0x100 * y + x % 256;
    assert y == 0x100 * (ip / 0x100_0000) + y % 256;
  }

  lemma {:induction false} DotsTextShape(ns: seq<nat>)
    requires AreOctets(ns)
    ensures 2 * |ns| <= |DotsText(ns)| <= 4 * |ns|
    ensures DotsText(ns) == [] || DotsText(ns)[0] == '.'
  {
    if ns != [] {
      DotsTextShape(ns[1..]);
    }
  }

  lemma {:induction false} ReadDotsText(ns: seq<nat>)
    requires AreOctets(ns)
    ensures ReadDots(DotsText(ns), |ns|) == Some((ns, []))
  {
    hide ReadOctet, OctetText;
    if ns != [] {
      DotsTextShape(ns[1..]);
      ReadDotsText(ns[1..]);
      ReadOctetText(ns[0], DotsText(ns[1..]));
      assert DotsText(ns)[1..] == OctetText(ns[0]) + DotsText(ns[1..]);
      assert [ns[0]] + ns[1..] == ns;
    }
  }

  lemma {:induction false} ReadDotsOnlyText(t: string, k: nat)
    requires ReadDots(t, k).Some?
    ensures var (ns, end) := ReadDots(t, k).value; t == DotsText(ns) + end
    decreases k
  {
    hide ReadOctet, OctetText;
    if k > 0 {
      ReadOctetOnlyText(t[1..]);
      var (n, rest) := ReadOctet(t[1..]).value;
      ReadDotsOnlyText(rest, k - 1);
      var (ns, end) := ReadDots(rest, k - 1).value;
      assert ([n] + ns)[1..] == ns;
      assert t == "." + t[1..];
      assert t == "." + OctetText(n) + DotsText(ns) + end;
    }
  }

  /** An address fits the columns that store it. */
  lemma DisplayLength(ip: Ip)
    ensures 7 <= |Display(ip)| <= 15
  {
    DotsTextShape([ip / 0x1_0000 % 256, ip / 0x100 % 256, ip % 256]);
  }

  /** Print, then parse: every address survives. */
  lemma ParseDisplay(ip: Ip)
    ensures Parse(Display(ip)) == Some(ip)
  {
    hide ReadOctet, ReadDots, OctetText, DotsText;
    DisplayLength(ip);
    var a, ns := ip / 0x100_0000, [ip / 0x1_0000 % 256, ip / 0x100 % 256, ip % 256];
    ReadDotsText(ns);
    DotsTextShape(ns);
    ReadOctetText(a, DotsText(ns));
    OctetsJoin(ip);
  }

  /** Parse, then print: the parser accepts each address in one spelling only. */
  lemma DisplayParse(t: string)
    requires Parse(t).Some?
    ensures Display(Parse(t).value) == t
  {
    ReadOctetOnlyText(t);
    var (a, dots) := ReadOctet(t).value;
    ReadDotsOnlyText(dots, 3);
    var (ns, end) := ReadDots(dots, 3).value;
    OctetsOfIp(a, ns[0], ns[1], ns[2]);
    assert ns == [ns[0], ns[1], ns[2]];
    assert dots == DotsText(ns);
  }

  /** Text equality of printed addresses is equality of addresses. */
  lemma DisplayInjective(x: Ip, y: Ip)
    ensures Display(x) == Display(y) <==> x == y
  {
    ParseDisplay(x);
    ParseDisplay(y);
  }

  /** `u32::from_str`: an optional plus sign, then digits whose value fits 32 bits. */
  function ParseU32(t: string): Option<nat> {
    var digits := if |t| > 1 && t[0] == '+' then t[1..] else t;
    if digits == [] || DigitRun(digits) < |digits| then None
    else
      var v := DecimalValue(digits);
      if v < U32_LIMIT then Some(v) else None
  }
}
