/** The address range test of the static IP login: 32-bit masks against the prefix division of section 3.1 of RFC 4632.
    Bit operations work on the 32-bit pattern, kept as a number from 0. */
module Cidr {
  import opened Types
  import opened Arithmetic
  import opened Decimal

  function Pow2(k: nat): (p: nat)
    ensures p >= 1
  {
    if k == 0 then 1 else 2 * Pow2(k - 1)
  }

  const WORD: nat := 0x1_0000_0000

  /** x & y of the lowest `n` bits */
  function And(x: nat, y: nat, n: nat): nat {
    if n == 0 then 0 else 2 * And(x / 2, y / 2, n - 1) + (if x % 2 == 1 && y % 2 == 1 then 1 else 0)
  }

  /** x | y of the lowest `n` bits */
  function Or(x: nat, y: nat, n: nat): nat {
    if n == 0 then 0 else 2 * Or(x / 2, y / 2, n - 1) + (if x % 2 == 1 || y % 2 == 1 then 1 else 0)
  }

  /** (x << k) >>> 0 */
  function ShiftLeft(x: nat, k: nat): nat { (x * Pow2(k)) % WORD }

  /** One step of the reduce: ((acc << 8) | num) >>> 0 */
  function Append(acc: nat, num: nat): nat { Or(ShiftLeft(acc, 8), num, 32) }

  function Octet(part: string): Option<nat> {
    match Number(part)
    case Some(n) => if n > 255 then None else Some(n)
    case None => None
  }

  /** ipv4ToInt */
  function Ipv4ToInt(ip: string): Option<nat> {
    var parts := Split(ip, '.');
    if |parts| != 4 then None
    else
      var a, b, c, d := Octet(parts[0]), Octet(parts[1]), Octet(parts[2]), Octet(parts[3]);
      if a.None? || b.None? || c.None? || d.None? then None
      else Some(Append(Append(Append(Append(0, a.value), b.value), c.value), d.value))
  }

  function Mask(prefix: nat): nat
    requires prefix <= 32
  {
    if prefix == 0 then 0 else ShiftLeft(0xffff_ffff, 32 - prefix)
  }

  /** normalizeIp of a trimmed address */
  function NormalizeIp(ip: string): string {
    if |ip| >= 7 && ip[..7] == "::ffff:" then ip[7..] else if ip == "::1" then "127.0.0.1" else ip
  }

  /** cidrContainsIp */
  predicate CidrContainsIp(cidr: string, ip: string) {
    var parts := Split(cidr, '/');
    var prefix := if |parts| < 2 then None else Number(parts[1]);
    var base, address := Ipv4ToInt(NormalizeIp(parts[0])), Ipv4ToInt(NormalizeIp(ip));
    if base.None? || address.None? || prefix.None? || prefix.value > 32 then false
    else And(base.value, Mask(prefix.value), 32) == And(address.value, Mask(prefix.value), 32)
  }

  // ---- bits ---------------------------------------------------------------------------------

  lemma {:induction false} PowSum(a: nat, b: nat)
    ensures Pow2(a + b) == Pow2(a) * Pow2(b)
  {
    if a > 0 {
      PowSum(a - 1, b);
      assert 2 * (Pow2(a - 1) * Pow2(b)) == 2 * Pow2(a - 1) * Pow2(b);
    }
  }

  lemma Words()
    ensures Pow2(8) == 256 && Pow2(32) == WORD
  {
    PowSum(16, 16);
    PowSum(8, 8);
    PowSum(4, 4);
  }

  lemma PowGrows(k: nat, n: nat)
    requires k <= n
    ensures Pow2(k) <= Pow2(n)
  {
    PowSum(k, n - k);
    assert Pow2(k) * Pow2(n - k) >= Pow2(k) * 1;
  }

  lemma {:induction false} AllOnes(x: nat, n: nat)
    requires x < Pow2(n)
    ensures And(x, Pow2(n) - 1, n) == x
  {
    if n > 0 {
      AllOnes(x / 2, n - 1);
      assert (Pow2(n) - 1) / 2 == Pow2(n - 1) - 1 && (Pow2(n) - 1) % 2 == 1;
    }
  }

  /** Masking with the bits from `k` up clears the lowest `k` bits. */
  lemma {:induction false} MaskClears(x: nat, k: nat, n: nat)
    requires k <= n && x < Pow2(n)
    ensures Pow2(k) <= Pow2(n) && And(x, Pow2(n) - Pow2(k), n) == x / Pow2(k) * Pow2(k)
  {
    PowGrows(k, n);
    if k == 0 {
      AllOnes(x, n);
    } else {
      hide *;
      PowHalves(x, k, n);
      AndEven(x, Pow2(n) - Pow2(k), Pow2(n - 1) - Pow2(k - 1), n);
      MaskClears(x / 2, k - 1, n - 1);
      HalfDivision(x, Pow2(k - 1), Pow2(k));
    }
  }

  lemma PowHalves(x: nat, k: nat, n: nat)
    requires 0 < k <= n && x < Pow2(n)
    ensures Pow2(k) == 2 * Pow2(k - 1) && Pow2(k - 1) <= Pow2(n - 1) && x / 2 < Pow2(n - 1)
    ensures Pow2(n) - Pow2(k) == 2 * (Pow2(n - 1) - Pow2(k - 1))
  {
    PowGrows(k - 1, n - 1);
  }

  lemma AndEven(x: nat, m: nat, half: nat, n: nat)
    requires n > 0 && m == 2 * half
    ensures And(x, m, n) == 2 * And(x / 2, half, n - 1)
  {
    assert m / 2 == half && m % 2 == 0;
  }

  lemma HalfDivision(x: nat, p: nat, q: nat)
    requires p > 0 && q == 2 * p
    ensures x / q * q == 2 * (x / 2 / p * p)
  {
    DivDiv(x, 2, p);
    var d := x / 2 / p;
    assert d * (2 * p) == 2 * (d * p);
  }

  /** Dividing twice is dividing by the product. */
  lemma DivDiv(x: nat, a: nat, b: nat)
    requires a > 0 && b > 0
    ensures a * b > 0 && x / (a * b) == x / a / b
  {
    var q := x / a;
    DivDivIs(x, a, b, q, x % a, q / b, q % b);
  }

  lemma DivDivIs(x: nat, a: nat, b: nat, q: nat, r: nat, s: nat, t: nat)
    requires x == a * q + r && q == b * s + t && r < a && t < b
    ensures a * b > 0 && x / (a * b) == s
  {
    Expand(a, b, s, t, r);
    Below(a, b, t, r);
    QuotientIs(x, a * b, s, a * t + r);
  }

  lemma Expand(a: nat, b: nat, s: nat, t: nat, r: nat)
    ensures a * (b * s + t) + r == a * b * s + (a * t + r)
  {
  }

  lemma Below(a: nat, b: nat, t: nat, r: nat)
    requires t < b && r < a
    ensures a * t + r < a * b
  {
    Distribute(a, t, b - t);
    AtLeast(a, b - t);
  }

  lemma Distribute(a: nat, t: nat, u: nat)
    ensures a * (t + u) == a * t + a * u
  {
  }

  lemma {:induction false} AtLeast(a: nat, d: nat)
    requires d >= 1
    ensures a * d >= a
  {
    if d > 1 {
      AtLeast(a, d - 1);
      Distribute(a, d - 1, 1);
    }
  }

  lemma MaskIs(prefix: nat)
    requires prefix <= 32
    ensures Pow2(32 - prefix) <= WORD && Mask(prefix) == WORD - Pow2(32 - prefix)
  {
    Words();
    PowGrows(32 - prefix, 32);
    if prefix > 0 {
      var p := Pow2(32 - prefix);
      assert 0xffff_ffff * p == WORD * (p - 1) + (WORD - p);
      QuotientIs(0xffff_ffff * p, WORD, p - 1, WORD - p);
    }
  }

  /** A number below 2^k joins one whose lowest k bits are free by addition. */
  lemma {:induction false} OrAdds(x: nat, y: nat, k: nat, n: nat)
    requires k <= n && y < Pow2(k) && x * Pow2(k) < Pow2(n)
    ensures Or(x * Pow2(k), y, n) == x * Pow2(k) + y
  {
    if k == 0 {
      OrZero(x, n);
      assert x * Pow2(0) == x;
    } else {
      var p := Pow2(k - 1);
      assert x * Pow2(k) == 2 * (x * p);
      OrAdds(x, y / 2, k - 1, n - 1);
    }
  }

  lemma {:induction false} OrZero(x: nat, n: nat)
    requires x < Pow2(n)
    ensures Or(x, 0, n) == x
  {
    if n > 0 {
      OrZero(x / 2, n - 1);
    }
  }

  lemma AppendIs(acc: nat, num: nat)
    requires acc < 0x100_0000 && num <= 255
    ensures Append(acc, num) == 256 * acc + num
  {
    Words();
    hide Or, Pow2;
    OrAdds(acc, num, 8, 32);
    QuotientIs(acc * Pow2(8), WORD, 0, acc * Pow2(8));
  }

  // ---- addresses ----------------------------------------------------------------------------

  datatype Address = Address(a: nat, b: nat, c: nat, d: nat)

  predicate ValidAddress(x: Address) { x.a <= 255 && x.b <= 255 && x.c <= 255 && x.d <= 255 }

  function Dotted(x: Address): string {
    Text(x.a) + "." + (Text(x.b) + "." + (Text(x.c) + "." + Text(x.d)))
  }

  function AddressValue(x: Address): nat { 256 * (256 * (256 * x.a + x.b) + x.c) + x.d }

  lemma DigitsOnly(s: string)
    requires AllDigits(s)
    ensures '.' !in s && '/' !in s && ':' !in s
  {
  }

  lemma DottedParts(x: Address)
    ensures Split(Dotted(x), '.') == [Text(x.a), Text(x.b), Text(x.c), Text(x.d)]
  {
    var a, b, c, d := Text(x.a), Text(x.b), Text(x.c), Text(x.d);
    hide Text, Split;
    DigitsOnly(a);
    DigitsOnly(b);
    DigitsOnly(c);
    DigitsOnly(d);
    SplitNone(d, '.');
    SplitFirst(c, '.', d);
    SplitFirst(b, '.', c + "." + d);
    SplitFirst(a, '.', b + "." + (c + "." + d));
    assert Dotted(x) == a + ['.'] + (b + "." + (c + "." + d));
    assert b + "." + (c + "." + d) == b + ['.'] + (c + "." + d);
    assert c + "." + d == c + ['.'] + d;
  }

  lemma OctetRoundTrip(n: nat)
    requires n <= 255
    ensures Octet(Text(n)) == Some(n)
  {
    TextRoundTrip(n);
    hide Text, Value;
  }

  /** The folded octets of a written address are its base-256 value. */
  lemma AddressRoundTrip(x: Address)
    requires ValidAddress(x)
    ensures Ipv4ToInt(Dotted(x)) == Some(AddressValue(x)) && AddressValue(x) < WORD
  {
    DottedParts(x);
    hide Split, Text, Append, Octet, Dotted;
    OctetRoundTrip(x.a);
    OctetRoundTrip(x.b);
    OctetRoundTrip(x.c);
    OctetRoundTrip(x.d);
    AppendIs(0, x.a);
    AppendIs(x.a, x.b);
    AppendIs(256 * x.a + x.b, x.c);
    AppendIs(256 * (256 * x.a + x.b) + x.c, x.d);
  }

  function CidrText(base: Address, prefix: nat): string { Dotted(base) + "/" + Text(prefix) }

  lemma CidrParts(base: Address, prefix: nat)
    ensures Split(CidrText(base, prefix), '/') == [Dotted(base), Text(prefix)]
  {
    NoSlash(base);
    DigitsOnly(Text(prefix));
    hide Text, Split, Dotted;
    SplitNone(Text(prefix), '/');
    SplitFirst(Dotted(base), '/', Text(prefix));
    assert CidrText(base, prefix) == Dotted(base) + ['/'] + Text(prefix);
  }

  lemma NoSlash(x: Address)
    ensures '/' !in Dotted(x) && ':' !in Dotted(x)
  {
    DigitsOnly(Text(x.a));
    DigitsOnly(Text(x.b));
    DigitsOnly(Text(x.c));
    DigitsOnly(Text(x.d));
    hide Text;
  }

  lemma NormalDotted(x: Address)
    ensures NormalizeIp(Dotted(x)) == Dotted(x)
  {
    NoSlash(x);
    NoColonIsNormal(Dotted(x));
  }

  lemma NoColonIsNormal(s: string)
    requires ':' !in s
    ensures NormalizeIp(s) == s
  {
    assert |s| > 0 ==> s[0] in s;
    assert |s| >= 7 ==> s[0] == s[..7][0];
  }

  predicate InBlock(base: Address, prefix: nat, ip: Address)
    requires prefix <= 32
  {
    AddressValue(ip) / Pow2(32 - prefix) == AddressValue(base) / Pow2(32 - prefix)
  }

  lemma SameMultiple(x: nat, y: nat, p: nat)
    requires p > 0
    ensures x / p * p == y / p * p <==> x / p == y / p
  {
    if x / p * p == y / p * p {
      assert p * (x / p - y / p) == 0;
      SmallMultiple(p, x / p - y / p);
    }
  }

  /** The 32-bit mask test is the division of both addresses by 2^(32 - prefix), for every pair of addresses and every
      prefix from 0 to 32. */
  lemma MaskTestIsDivision(base: Address, prefix: nat, ip: Address)
    requires ValidAddress(base) && ValidAddress(ip) && prefix <= 32
    ensures CidrContainsIp(CidrText(base, prefix), Dotted(ip)) <==> InBlock(base, prefix, ip)
  {
    hide *;
    ContainsIs(base, prefix, ip);
    AddressRoundTrip(base);
    AddressRoundTrip(ip);
    MaskedIs(AddressValue(base), prefix);
    MaskedIs(AddressValue(ip), prefix);
    SameMultiple(AddressValue(base), AddressValue(ip), Pow2(32 - prefix));
    BlockIs(base, prefix, ip);
  }

  lemma MaskedIs(x: nat, prefix: nat)
    requires x < WORD && prefix <= 32
    ensures And(x, Mask(prefix), 32) == x / Pow2(32 - prefix) * Pow2(32 - prefix)
  {
    hide *;
    Words();
    MaskIs(prefix);
    MaskClears(x, 32 - prefix, 32);
  }

  lemma BlockIs(base: Address, prefix: nat, ip: Address)
    requires prefix <= 32
    ensures InBlock(base, prefix, ip) <==> AddressValue(base) / Pow2(32 - prefix) == AddressValue(ip) / Pow2(32 - prefix)
  {
    hide AddressValue, Pow2;
  }

  lemma ContainsIs(base: Address, prefix: nat, ip: Address)
    requires ValidAddress(base) && ValidAddress(ip) && prefix <= 32
    ensures CidrContainsIp(CidrText(base, prefix), Dotted(ip))
            <==> And(AddressValue(base), Mask(prefix), 32) == And(AddressValue(ip), Mask(prefix), 32)
  {
    CidrParts(base, prefix);
    TextRoundTrip(prefix);
    NormalDotted(base);
    NormalDotted(ip);
    AddressRoundTrip(base);
    AddressRoundTrip(ip);
    hide And, Mask, Ipv4ToInt, AddressValue, Dotted, Text, Split, NormalizeIp, CidrText, Value;
  }

  /** A longer prefix names a block within the block of each of its shorter prefixes. */
  lemma LongerPrefixIsWithin(base: Address, shorter: nat, longer: nat, ip: Address)
    requires shorter <= longer <= 32 && InBlock(base, longer, ip)
    ensures InBlock(base, shorter, ip)
  {
    PowSum(32 - longer, longer - shorter);
    hide Pow2, AddressValue;
    DivDiv(AddressValue(ip), Pow2(32 - longer), Pow2(longer - shorter));
    DivDiv(AddressValue(base), Pow2(32 - longer), Pow2(longer - shorter));
  }

  /** Through the texts: what the longer prefix admits, the shorter one admits. */
  lemma LongerPrefixAdmitsLess(base: Address, shorter: nat, longer: nat, ip: Address)
    requires ValidAddress(base) && ValidAddress(ip) && shorter <= longer <= 32
    requires CidrContainsIp(CidrText(base, longer), Dotted(ip))
    ensures CidrContainsIp(CidrText(base, shorter), Dotted(ip))
  {
    hide *;
    MaskTestIsDivision(base, longer, ip);
    MaskTestIsDivision(base, shorter, ip);
    LongerPrefixIsWithin(base, shorter, longer, ip);
  }

  lemma WholeSpace(base: Address, ip: Address)
    requires ValidAddress(base) && ValidAddress(ip)
    ensures InBlock(base, 0, ip)
  {
    Words();
    AddressBound(base);
    AddressBound(ip);
    hide Pow2, AddressValue;
    QuotientIs(AddressValue(base), WORD, 0, AddressValue(base));
    QuotientIs(AddressValue(ip), WORD, 0, AddressValue(ip));
  }

  lemma SingleAddress(base: Address, ip: Address)
    requires ValidAddress(base) && ValidAddress(ip)
    ensures InBlock(base, 32, ip) <==> ip == base
  {
    assert Pow2(0) == 1;
    hide Pow2, AddressValue;
    QuotientIs(AddressValue(base), 1, AddressValue(base), 0);
    QuotientIs(AddressValue(ip), 1, AddressValue(ip), 0);
    if AddressValue(ip) == AddressValue(base) {
      SameValue(base, ip);
    }
  }

  lemma AddressBound(x: Address)
    requires ValidAddress(x)
    ensures AddressValue(x) < WORD
  {
  }

  lemma SameValue(x: Address, y: Address)
    requires ValidAddress(x) && ValidAddress(y) && AddressValue(x) == AddressValue(y)
    ensures x == y
  {
    SameDigits(256 * (256 * x.a + x.b) + x.c, x.d, 256 * (256 * y.a + y.b) + y.c, y.d);
    SameDigits(256 * x.a + x.b, x.c, 256 * y.a + y.b, y.c);
    SameDigits(x.a, x.b, y.a, y.b);
  }

  lemma SameDigits(p: nat, q: nat, r: nat, s: nat)
    requires 256 * p + q == 256 * r + s && q <= 255 && s <= 255
    ensures p == r && q == s
  {
    SmallMultiple(256, p - r);
  }

  /** Prefix 0 admits every address and prefix 32 only the base itself. */
  lemma ExtremePrefixes(base: Address, ip: Address)
    requires ValidAddress(base) && ValidAddress(ip)
    ensures CidrContainsIp(CidrText(base, 0), Dotted(ip))
    ensures CidrContainsIp(CidrText(base, 32), Dotted(ip)) <==> ip == base
  {
    hide CidrContainsIp, CidrText, Dotted, InBlock;
    MaskTestIsDivision(base, 0, ip);
    MaskTestIsDivision(base, 32, ip);
    WholeSpace(base, ip);
    SingleAddress(base, ip);
  }

  // ---- mapped addresses ---------------------------------------------------------------------

  /** An IPv4 address in its IPv6 form is admitted exactly where the plain one is, and the IPv6 loopback where 127.0.0.1
      is. */
  lemma MappedIsPlain(cidr: string, ip: string)
    requires !("::ffff:" <= ip) && ip != "::1"
    ensures CidrContainsIp(cidr, "::ffff:" + ip) <==> CidrContainsIp(cidr, ip)
    ensures CidrContainsIp(cidr, "::1") <==> CidrContainsIp(cidr, "127.0.0.1")
  {
    var mapped := "::ffff:" + ip;
    assert mapped[..7] == "::ffff:" && mapped[7..] == ip;
    assert NormalizeIp(mapped) == ip;
    assert |ip| >= 7 ==> ip[..7] != "::ffff:";
    assert NormalizeIp(ip) == ip;
    assert NormalizeIp("127.0.0.1") == "127.0.0.1" by {
      assert "127.0.0.1"[0] == '1';
      assert "::ffff:"[0] == ':';
    }
    assert NormalizeIp("::1") == "127.0.0.1";
    hide And, Mask, Ipv4ToInt, Split, Number, NormalizeIp;
  }
}
