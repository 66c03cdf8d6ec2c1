/** Address blocks in prefix notation: parsing, masking, normalising, and the validator both sides share. */
module Cidr {
  import opened Ipv4
  import opened Wrappers

  datatype Block = Block(network: Ip, broadcast: Ip, prefix: nat) {
    /** A usable host: strictly between the network and the broadcast address. */
    predicate ContainsHost(ip: Ip) { network < ip < broadcast }

    ghost predicate Valid() {
      && 16 <= prefix <= 30
      && network % Size(prefix) == 0
      && broadcast == network + Size(prefix) - 1
    }
  }

  function Pow2(k: nat): (r: nat)
    ensures r > 0
  {
    if k == 0 then 1 else 2 * Pow2(k - 1)
  }

  /** The number of addresses in a block with this prefix length. */
  function Size(prefix: nat): (r: nat)
    requires prefix <= 32
    ensures r > 0
  {
    Pow2(32 - prefix)
  }

  /** `ip & (u32::MAX << (32 - prefix))`: the low bits cleared. */
  function Mask(ip: Ip, prefix: nat): Ip
    requires prefix <= 32
  {
    MaskIsBelow(ip, Size(prefix));
    ip / Size(prefix) * Size(prefix)
  }

  function FirstSlash(t: string): (i: nat)
    ensures i <= |t|
    ensures forall k | 0 <= k < i :: t[k] != '/'
    ensures i < |t| ==> t[i] == '/'
  {
    if t == [] || t[0] == '/' then 0 else 1 + FirstSlash(t[1..])
  }

  function SplitCidr(t: string): Option<(string, string)> {
    var i := FirstSlash(t);
    if i == |t| then None else Some((t[..i], t[i + 1..]))
  }

  function PrefixFor(t: string): (r: Option<nat>)
    ensures r.Some? ==> 16 <= r.value <= 30
  {
    match ParseU32(t)
    case None => None
    case Some(p) => if 16 <= p <= 30 then Some(p) else None
  }

  function ParseCidr(t: string): Option<Block> {
    match SplitCidr(t)
    case None => None
    case Some((networkText, prefixText)) =>
      match (Parse(networkText), PrefixFor(prefixText)) {
        case (Some(ip), Some(p)) =>
          var network := Mask(ip, p);
          BroadcastFits(ip, p);
          Some(Block(network, network + Size(p) - 1, p))
        case _ => None
      }
  }

  function PrefixText(p: nat): string
    requires 16 <= p <= 30
  {
    [Digit(p / 10), Digit(p % 10)]
  }

  function BlockText(b: Block): string
    requires 16 <= b.prefix <= 30
  {
    Display(b.network) + "/" + PrefixText(b.prefix)
  }

  function NormalizeCidr(t: string): (r: Option<string>) {
    match ParseCidr(t)
    case None => None
    case Some(b) => ParseCidrBlock(t); Some(BlockText(b))
  }

  lemma MaskIsBelow(ip: Ip, size: nat)
    requires size > 0
    ensures 0 <= ip / size * size <= ip
    ensures ip / size * size == ip - ip % size
  {
  }

  lemma {:induction false} Pow2Add(a: nat, b: nat)
    ensures Pow2(a + b) == Pow2(a) * Pow2(b)
  {
    if a > 0 {
      Pow2Add(a - 1, b);
      DoubleProduct(Pow2(a - 1), Pow2(b));
    }
  }

  lemma DoubleProduct(x: nat, y: nat)
    ensures 2 * x * y == 2 * (x * y)
  {
  }

  lemma MultipleBelow(q: nat, size: nat, count: nat)
    requires q < count
    ensures q * size + size <= count * size
  {
    assert (q + 1) * size <= count * size;
  }

  lemma QuotientIs(x: nat, q: nat, size: nat)
    requires size > 0 && q * size <= x < q * size + size
    ensures x / size == q
  {
    var d := x / size;
    DivisionBounds(x, size);
    if d < q {
      MultipleBelow(d, size, q);
    } else if d > q {
      MultipleBelow(q, size, d);
    }
  }

  lemma DivisionBounds(x: nat, size: nat)
    requires size > 0
    ensures x / size * size <= x < x / size * size + size
    ensures x / size * size == x - x % size
  {
  }

  lemma MultipleHasNoRemainder(q: nat, size: nat)
    requires size > 0
    ensures q * size % size == 0
  {
    QuotientIs(q * size, q, size);
    DivisionBounds(q * size, size);
  }

  lemma Pow2Of32()
    ensures Pow2(32) == U32_LIMIT
  {
    assert Pow2(8) == 0x100;
    Pow2Add(8, 8);
    Pow2Add(16, 16);
  }

  /** The whole block lies below 2^32, so neither the mask nor the host range overflows. */
  lemma BroadcastFits(ip: Ip, p: nat)
    requires p <= 32
    ensures Mask(ip, p) + Size(p) <= U32_LIMIT
  {
    hide Pow2;
    Pow2Add(32 - p, p);
    Pow2Of32();
    var q := ip / Size(p);
    MaskIsBelow(ip, Size(p));
    if q >= Pow2(p) {
      MultipleBelow(Pow2(p) - 1, Size(p), q);
    }
    MultipleBelow(q, Size(p), Pow2(p));
  }

  /** Every accepted text denotes an aligned block of 2^(32-p) addresses, inside 32 bits, around its address. */
  lemma ParseCidrBlock(t: string)
    requires ParseCidr(t).Some?
    ensures var b := ParseCidr(t).value;
            && b.Valid()
            && exists ip: Ip :: Parse(SplitCidr(t).value.0) == Some(ip) && b.network <= ip <= b.broadcast
  {
    hide SplitCidr, Parse, PrefixFor, Pow2;
    var (networkText, prefixText) := SplitCidr(t).value;
    var ip := Parse(networkText).value;
    var p := PrefixFor(prefixText).value;
    DivisionBounds(ip, Size(p));
    MultipleHasNoRemainder(ip / Size(p), Size(p));
  }

  lemma PrefixTextParses(p: nat)
    requires 16 <= p <= 30
    ensures PrefixFor(PrefixText(p)) == Some(p)
  {
    DecimalValueShort(PrefixText(p));
    assert PrefixText(p) + [] == PrefixText(p);
    DigitRunOf(PrefixText(p), []);
  }

  lemma SplitAt(left: string, right: string)
    requires '/' !in left
    ensures SplitCidr(left + "/" + right) == Some((left, right))
  {
    var t := left + "/" + right;
    var i := FirstSlash(t);
    assert t[|left|] == '/';
    assert forall k | 0 <= k < |left| :: t[k] == left[k];
    assert t[..i] == left && t[i + 1..] == right;
  }

  lemma OctetTextHasNoSlash(n: nat)
    requires n < 256
    ensures '/' !in OctetText(n)
  {
  }

  lemma {:induction false} DotsTextHasNoSlash(ns: seq<nat>)
    requires AreOctets(ns)
    ensures '/' !in DotsText(ns)
  {
    if ns != [] {
      OctetTextHasNoSlash(ns[0]);
      DotsTextHasNoSlash(ns[1..]);
    }
  }

  /** A block printed in prefix notation parses back to the same block. */
  lemma ParseBlockText(b: Block)
    requires b.Valid()
    ensures ParseCidr(BlockText(b)) == Some(b)
  {
    hide Parse, OctetText, DotsText, PrefixText, PrefixFor, Size, SplitCidr;
    assert '/' !in Display(b.network) by {
      OctetTextHasNoSlash(b.network / 0x100_0000);
      DotsTextHasNoSlash([b.network / 0x1_0000 % 256, b.network / 0x100 % 256, b.network % 256]);
    }
    SplitAt(Display(b.network), PrefixText(b.prefix));
    ParseDisplay(b.network);
    PrefixTextParses(b.prefix);
    MaskIsBelow(b.network, Size(b.prefix));
  }

  /** Normalising keeps the block, is idempotent, and fits the column, which takes 9 to 18 characters. */
  lemma NormalizeKeepsBlock(t: string)
    requires ParseCidr(t).Some?
    ensures NormalizeCidr(t).Some?
    ensures var n := NormalizeCidr(t).value;
            ParseCidr(n) == ParseCidr(t) && NormalizeCidr(n) == Some(n) && 10 <= |n| <= 18
  {
    hide Parse, SplitCidr, Display;
    ParseCidrBlock(t);
    var b := ParseCidr(t).value;
    ParseBlockText(b);
    DisplayLength(b.network);
  }

  /** Two accepted texts normalise alike exactly when they denote the same block. */
  lemma NormalizeCanonical(s: string, t: string)
    requires ParseCidr(s).Some? && ParseCidr(t).Some?
    ensures NormalizeCidr(s) == NormalizeCidr(t) <==> ParseCidr(s) == ParseCidr(t)
  {
    NormalizeKeepsBlock(s);
    NormalizeKeepsBlock(t);
  }

  /** `same_ipv4_network` */
  predicate SameNetwork(x: Ip, y: Ip, prefix: nat)
    requires prefix <= 32
  {
    Mask(x, prefix) == Mask(y, prefix)
  }

  function ValidateAssignedIp(t: string): Option<Ip> {
    match Parse(t)
    case None => None
    case Some(ip) => if ip == 0 || ip == U32_LIMIT - 1 then None else Some(ip)
  }

  /** `validate_assigned_network`: all three fields absent, or a consistent host address. */
  predicate ValidAssignedNetwork(ip: Option<string>, prefix: Option<nat>, gateway: Option<string>) {
    if ip.None? && prefix.None? && gateway.None? then true
    else if ip.None? || prefix.None? || gateway.None? then false
    else match (ValidateAssignedIp(ip.value), ValidateAssignedIp(gateway.value)) {
           case (Some(x), Some(g)) =>
             16 <= prefix.value <= 30 && x != g && SameNetwork(x, g, prefix.value)
           case _ => false
         }
  }

  lemma HostsShareTheNetwork(b: Block, ip: Ip)
    requires b.Valid() && b.network <= ip <= b.broadcast
    ensures Mask(ip, b.prefix) == b.network
  {
    var size := Size(b.prefix);
    MaskIsBelow(ip, size);
    MaskIsBelow(b.network, size);
    assert b.network == b.network / size * size;
    QuotientIs(ip, b.network / size, size);
  }

  /** Any two different hosts of a block, printed, satisfy the validator that the agent runs. */
  lemma HostsPassValidator(b: Block, ip: Ip, gateway: Ip)
    requires b.Valid() && b.ContainsHost(ip) && b.ContainsHost(gateway) && ip != gateway
    ensures ValidAssignedNetwork(Some(Display(ip)), Some(b.prefix), Some(Display(gateway)))
  {
    hide Parse, Display, Mask;
    ParseDisplay(ip);
    ParseDisplay(gateway);
    HostsShareTheNetwork(b, ip);
    HostsShareTheNetwork(b, gateway);
  }

  /** And the validator accepts nothing but two different addresses of one block of the stated size. */
  lemma ValidatorMeaning(ip: string, prefix: nat, gateway: string)
    requires ValidAssignedNetwork(Some(ip), Some(prefix), Some(gateway))
    ensures exists b: Block, x: Ip, g: Ip ::
              && b.Valid() && b.prefix == prefix
              && ip == Display(x) && gateway == Display(g) && x != g
              && b.network <= x <= b.broadcast && b.network <= g <= b.broadcast
  {
    hide Parse, Display;
    DisplayParse(ip);
    DisplayParse(gateway);
    var x, g := Parse(ip).value, Parse(gateway).value;
    var network := Mask(x, prefix);
    BroadcastFits(x, prefix);
    var b := Block(network, network + Size(prefix) - 1, prefix);
    MaskIsBelow(x, Size(prefix));
    MaskIsBelow(g, Size(prefix));
    MultipleHasNoRemainder(x / Size(prefix), Size(prefix));
    assert b.Valid();
    assert ip == Display(x) && gateway == Display(g);
  }
}
