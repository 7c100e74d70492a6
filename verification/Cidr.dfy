/**
 * IPv4 text, masks and CIDR blocks (RFC 4632, section 3.1), as the SSRF guard and the client-IP filter
 * compute them. JavaScript's 32-bit `&`, `<<` and `>>>` are spelled out on integers.
 */
module Cidr {
  import opened Arithmetic
  import opened Common
  import opened Text

  const TWO32 := 0x1_0000_0000

  // ---------------------------------------------------------------- 32-bit operators

  function Pow2(n: nat): (p: nat)
    ensures p > 0
  {
    if n == 0 then 1 else 2 * Pow2(n - 1)
  }

  /** Bitwise and of two non-negative integers. */
  function BitAnd(a: nat, b: nat): nat {
    if a == 0 || b == 0 then 0 else 2 * BitAnd(a / 2, b / 2) + if a % 2 == 1 && b % 2 == 1 then 1 else 0
  }

  /** `>>> 0`: the value modulo two to the 32. */
  function Unsigned(x: int): nat {
    x % TWO32
  }

  /** What `&` and `<<` return: the low 32 bits read as a signed number. */
  function Signed(x: int): int {
    var u := Unsigned(x);
    if u >= 0x8000_0000 then u - TWO32 else u
  }

  function JsAnd(a: int, b: int): int {
    Signed(BitAnd(Unsigned(a), Unsigned(b)))
  }

  function JsShiftLeft(a: int, k: nat): int {
    Signed(Unsigned(a) * Pow2(k % 32))
  }

  /** The guard's own mask computation. */
  function Mask(bits: nat): nat
    requires bits <= 32
  {
    if bits == 0 then 0 else Unsigned(JsShiftLeft(0xffff_ffff, 32 - bits))
  }

  predicate SameUnderMask(ip: int, base: int, bits: nat)
    requires bits <= 32
  {
    JsAnd(ip, Mask(bits)) == JsAnd(base, Mask(bits))
  }

  // ---------------------------------------------------------------- masks are quotients

  lemma {:induction false} Pow2Adds(a: nat, b: nat)
    ensures Pow2(a + b) == Pow2(a) * Pow2(b)
  {
    if a > 0 {
      Pow2Adds(a - 1, b);
    }
  }

  lemma Pow2Of32()
    ensures Pow2(32) == TWO32
  {
    assert Pow2(8) == 256;
    Pow2Adds(8, 8);
    Pow2Adds(16, 16);
  }

  lemma {:induction false} Pow2Grows(a: nat, b: nat)
    requires a <= b
    ensures Pow2(a) <= Pow2(b)
    decreases b
  {
    if a < b {
      Pow2Grows(a, b - 1);
    }
  }

  lemma {:induction false} AndOnes(x: nat, w: nat)
    requires x < Pow2(w)
    ensures BitAnd(x, Pow2(w) - 1) == x
  {
    if w > 0 {
      QuotientIs(Pow2(w) - 1, 2, Pow2(w - 1) - 1, 1);
      AndOnes(x / 2, w - 1);
    }
  }

  /** Doubling the mask of the half is masking all but the last bit. */
  lemma AndEven(x: nat, half: nat)
    ensures BitAnd(x, 2 * half) == 2 * BitAnd(x / 2, half)
  {
    QuotientIs(2 * half, 2, half, 0);
  }

  lemma AndMaskStep(x: nat, w: nat, k: nat)
    requires 0 < k <= w && Pow2(k - 1) <= Pow2(w - 1)
    requires BitAnd(x / 2, Pow2(w - 1) - Pow2(k - 1)) == x / 2 - x / 2 % Pow2(k - 1)
    ensures Pow2(k) <= Pow2(w) && BitAnd(x, Pow2(w) - Pow2(k)) == x - x % Pow2(k)
  {
    AndEven(x, Pow2(w - 1) - Pow2(k - 1));
    HalvedQuotient(x, Pow2(k - 1));
  }

  /** And-ing with `w - k` ones followed by `k` zeros rounds down to a multiple of two to the `k`. */
  lemma {:induction false} AndMask(x: nat, w: nat, k: nat)
    requires k <= w && x < Pow2(w)
    ensures Pow2(k) <= Pow2(w)
    ensures BitAnd(x, Pow2(w) - Pow2(k)) == x - x % Pow2(k)
    decreases k
  {
    if k == 0 {
      Pow2Grows(k, w);
      AndOnes(x, w);
    } else {
      AndMask(x / 2, w - 1, k - 1);
      AndMaskStep(x, w, k);
    }
  }

  predicate Address(x: int) {
    0 <= x < TWO32
  }

  lemma UnsignedAddress(x: nat)
    requires Address(x)
    ensures Unsigned(x) == x
  {
  }

  lemma UnsignedSigned(x: nat)
    ensures Unsigned(Signed(x)) == Unsigned(x)
  {
    var q, r := Divide(x, TWO32);
    if r >= 0x8000_0000 {
      assert Signed(x) == TWO32 * (-1) + r;
      assert (TWO32 * (-1) + r) % TWO32 == r;
    }
  }

  lemma MaskIs(bits: nat)
    requires bits <= 32
    ensures Mask(bits) == TWO32 - Pow2(32 - bits)
  {
    Pow2Of32();
    if bits > 0 {
      var k := 32 - bits;
      var p := Pow2(k);
      Pow2Grows(k, 32);
      Pow2Grows(0, k);
      QuotientIs(0xffff_ffff * p, TWO32, p - 1, TWO32 - p);
      UnsignedAddress(0xffff_ffff);
      assert k % 32 == k;
      UnsignedSigned(0xffff_ffff * p);
    }
  }

  /** Two addresses share a block of prefix length `bits` iff they have the same quotient by its size. */
  predicate SameBlock(x: nat, y: nat, bits: nat)
    requires bits <= 32
  {
    x / Pow2(32 - bits) == y / Pow2(32 - bits)
  }

  /** The greatest multiple of `p` up to `x`. */
  function RoundDown(x: nat, p: nat): (rounded: nat)
    requires p > 0
    ensures rounded <= x
  {
    QuotientForm(x, p);
    x - x % p
  }

  lemma BitAndMask(x: nat, bits: nat)
    requires Address(x) && bits <= 32
    ensures Address(Mask(bits)) && BitAnd(x, Mask(bits)) == RoundDown(x, Pow2(32 - bits))
  {
    Pow2Of32();
    MaskIs(bits);
    AndMask(x, 32, 32 - bits);
  }

  lemma JsAndMask(x: nat, bits: nat)
    requires Address(x) && bits <= 32
    ensures JsAnd(x, Mask(bits)) == Signed(RoundDown(x, Pow2(32 - bits)))
  {
    BitAndMask(x, bits);
    UnsignedAddress(x);
    UnsignedAddress(Mask(bits));
  }

  lemma SignedIsInjective(x: nat, y: nat)
    requires Address(x) && Address(y) && Signed(x) == Signed(y)
    ensures x == y
  {
    UnsignedAddress(x);
    UnsignedAddress(y);
  }

  lemma SameRounding(x: nat, y: nat, p: nat)
    requires p > 0
    ensures RoundDown(x, p) == RoundDown(y, p) <==> x / p == y / p
  {
    QuotientForm(x, p);
    QuotientForm(y, p);
    if x / p < y / p {
      MulStep(p, x / p, y / p);
    } else if y / p < x / p {
      MulStep(p, y / p, x / p);
    }
  }

  /** The masked comparison is equality of quotients, for every prefix length 0 to 32. */
  lemma MaskIsBlock(x: nat, y: nat, bits: nat)
    requires Address(x) && Address(y) && bits <= 32
    ensures SameUnderMask(x, y, bits) <==> SameBlock(x, y, bits)
  {
    var p := Pow2(32 - bits);
    var a, b := RoundDown(x, p), RoundDown(y, p);
    JsAndMask(x, bits);
    JsAndMask(y, bits);
    SameRounding(x, y, p);
    if Signed(a) == Signed(b) {
      SignedIsInjective(a, b);
    }
  }

  /** A block is the interval of addresses that starts at its rounded-down base. */
  lemma BlockIsInterval(x: nat, base: nat, bits: nat)
    requires bits <= 32
    ensures var p := Pow2(32 - bits);
            SameBlock(x, base, bits) <==> base - base % p <= x < base - base % p + p
  {
    var p := Pow2(32 - bits);
    QuotientForm(x, p);
    QuotientForm(base, p);
    var start := base - base % p;
    if start <= x < start + p {
      QuotientIs(x, p, base / p, x - start);
    }
  }

  /** Two CIDR blocks are nested or disjoint: one shared address puts the longer prefix inside the shorter. */
  lemma NestedOrDisjoint(base1: nat, bits1: nat, base2: nat, bits2: nat, shared: nat, x: nat)
    requires bits1 <= bits2 <= 32
    requires SameBlock(shared, base1, bits1) && SameBlock(shared, base2, bits2)
    requires SameBlock(x, base2, bits2)
    ensures SameBlock(x, base1, bits1)
  {
    Pow2Adds(32 - bits2, bits2 - bits1);
    NestedQuotient(x, Pow2(32 - bits2), Pow2(bits2 - bits1));
    NestedQuotient(shared, Pow2(32 - bits2), Pow2(bits2 - bits1));
  }

  // ---------------------------------------------------------------- dotted quads

  function Split(s: string, sep: char): (parts: seq<string>)
    ensures |parts| > 0
  {
    if s == "" then [""]
    else if s[0] == sep then [""] + Split(s[1..], sep)
    else
      var rest := Split(s[1..], sep);
      [[s[0]] + rest[0]] + rest[1..]
  }

  predicate IsDigit(c: char) {
    '0' <= c <= '9'
  }

  /** One to three decimal digits. */
  predicate ShortNumeral(part: string) {
    1 <= |part| <= 3 && forall i :: 0 <= i < |part| ==> IsDigit(part[i])
  }

  function DigitValue(c: char): nat
    requires IsDigit(c)
  {
    c as int - '0' as int
  }

  function Numeral(digits: string): nat
    requires forall i :: 0 <= i < |digits| ==> IsDigit(digits[i])
  {
    if digits == "" then 0 else Numeral(digits[..|digits| - 1]) * 10 + DigitValue(digits[|digits| - 1])
  }

  type OctetReader = string -> Option<nat>

  /** How the SSRF guard reads one part. */
  function GuardOctet(part: string): Option<nat> {
    if ShortNumeral(part) && Numeral(part) <= 255 then Some(Numeral(part)) else None
  }

  /**
   * How the client-IP filter reads one part. `number` stands for JavaScript's `Number` followed by
   * `Number.isInteger`: the integer a string denotes, if it denotes one.
   */
  function FilterOctet(number: string -> Option<int>, part: string): Option<nat> {
    match number(part)
    case None => None
    case Some(n) => if 0 <= n <= 255 then Some(n) else None
  }

  /** The value accumulated over the parts, or `None` at the first unreadable one. */
  function Accumulate(read: OctetReader, parts: seq<string>): Option<nat> {
    if parts == [] then Some(0)
    else
      match Accumulate(read, parts[..|parts| - 1])
      case None => None
      case Some(v) => match read(parts[|parts| - 1])
                      case None => None
                      case Some(n) => Some(v * 256 + n)
  }

  function Parse(read: OctetReader, text: string): Option<nat> {
    var parts := Split(text, '.');
    if |parts| != 4 then None
    else match Accumulate(read, parts)
         case None => None
         case Some(v) => Some(Unsigned(v))
  }

  lemma {:induction false} AccumulateStops(read: OctetReader, parts: seq<string>, i: nat)
    requires i < |parts| && (Accumulate(read, parts[..i]).None? || read(parts[i]).None?)
    ensures Accumulate(read, parts).None?
  {
    if i + 1 < |parts| {
      var init := parts[..|parts| - 1];
      assert init[..i] == parts[..i];
      AccumulateStops(read, init, i);
    } else {
      assert parts[..|parts| - 1] == parts[..i];
    }
  }

  method Ipv4ToInt(ip: string) returns (r: Option<nat>)
    ensures r == Parse(GuardOctet, ip)
  {
    var parts := Split(ip, '.');
    if |parts| != 4 {
      return None;
    }
    var value: nat := 0;
    for i := 0 to |parts|
      invariant Accumulate(GuardOctet, parts[..i]) == Some(value)
    {
      assert parts[..i + 1][..i] == parts[..i];
      if !ShortNumeral(parts[i]) {
        AccumulateStops(GuardOctet, parts, i);
        return None;
      }
      var n := Numeral(parts[i]);
      if n > 255 {
        AccumulateStops(GuardOctet, parts, i);
        return None;
      }
      value := value * 256 + n;
    }
    assert parts[..|parts|] == parts;
    return Some(Unsigned(value));
  }

  method ToInt(number: string -> Option<int>, s: string) returns (r: Option<nat>)
    ensures r == Parse(part => FilterOctet(number, part), s)
  {
    var read: OctetReader := part => FilterOctet(number, part);
    var parts := Split(s, '.');
    if |parts| != 4 {
      return None;
    }
    var v: nat := 0;
    for i := 0 to |parts|
      invariant Accumulate(read, parts[..i]) == Some(v)
    {
      assert parts[..i + 1][..i] == parts[..i];
      var n := number(parts[i]);
      if n.None? || n.value < 0 || n.value > 255 {
        AccumulateStops(read, parts, i);
        return None;
      }
      v := v * 256 + n.value;
    }
    assert parts[..|parts|] == parts;
    return Some(Unsigned(v));
  }

  lemma {:induction false} AccumulateAgrees(read: OctetReader, other: OctetReader, parts: seq<string>)
    requires forall p :: p in parts && read(p).Some? ==> other(p) == read(p)
    ensures Accumulate(read, parts).Some? ==> Accumulate(other, parts) == Accumulate(read, parts)
  {
    if parts != [] {
      AccumulateAgrees(read, other, parts[..|parts| - 1]);
    }
  }

  /** `Number` reads plain decimal numerals as what they denote. */
  ghost predicate ReadsNumerals(number: string -> Option<int>) {
    forall p :: ShortNumeral(p) ==> number(p) == Some(Numeral(p))
  }

  /** Wherever the guard's parser succeeds, the filter's parser returns the same address. */
  lemma ParsersAgree(number: string -> Option<int>, text: string)
    requires ReadsNumerals(number) && Parse(GuardOctet, text).Some?
    ensures Parse(part => FilterOctet(number, part), text) == Parse(GuardOctet, text)
  {
    AccumulateAgrees(GuardOctet, part => FilterOctet(number, part), Split(text, '.'));
  }

  // ---------------------------------------------------------------- printing

  function DigitOf(d: nat): char
    requires d < 10
  {
    (d + '0' as int) as char
  }

  function Decimal(n: nat): string
    requires n < 1000
  {
    if n < 10 then [DigitOf(n)]
    else if n < 100 then [DigitOf(n / 10), DigitOf(n % 10)]
    else [DigitOf(n / 10 / 10), DigitOf(n / 10 % 10), DigitOf(n % 10)]
  }

  function Quad(a: nat, b: nat, c: nat, d: nat): string
    requires a < 256 && b < 256 && c < 256 && d < 256
  {
    Decimal(a) + "." + (Decimal(b) + "." + (Decimal(c) + "." + Decimal(d)))
  }

  function Dotted(x: nat): string
    requires Address(x)
  {
    Quad(x / 0x100_0000, x / 0x1_0000 % 256, x / 0x100 % 256, x % 256)
  }

  lemma NumeralSnoc(digits: string, c: char)
    requires IsDigit(c) && forall i :: 0 <= i < |digits| ==> IsDigit(digits[i])
    ensures Numeral(digits + [c]) == Numeral(digits) * 10 + DigitValue(c)
  {
    assert (digits + [c])[..|digits|] == digits;
  }

  lemma OneDigit(a: nat)
    requires a < 10
    ensures [DigitOf(a)][0] == DigitOf(a) && IsDigit(DigitOf(a)) && DigitValue(DigitOf(a)) == a
    ensures Numeral([DigitOf(a)]) == a
  {
    NumeralSnoc("", DigitOf(a));
    assert "" + [DigitOf(a)] == [DigitOf(a)];
  }

  lemma TwoDigits(a: nat, b: nat)
    requires a < 10 && b < 10
    ensures IsDigit(DigitOf(a)) && IsDigit(DigitOf(b)) && Numeral([DigitOf(a), DigitOf(b)]) == a * 10 + b
  {
    OneDigit(a);
    OneDigit(b);
    NumeralSnoc([DigitOf(a)], DigitOf(b));
    assert [DigitOf(a)] + [DigitOf(b)] == [DigitOf(a), DigitOf(b)];
  }

  lemma ThreeDigits(a: nat, b: nat, c: nat)
    requires a < 10 && b < 10 && c < 10
    ensures IsDigit(DigitOf(a)) && IsDigit(DigitOf(b)) && IsDigit(DigitOf(c))
    ensures Numeral([DigitOf(a), DigitOf(b), DigitOf(c)]) == (a * 10 + b) * 10 + c
  {
    TwoDigits(a, b);
    OneDigit(c);
    NumeralSnoc([DigitOf(a), DigitOf(b)], DigitOf(c));
    assert [DigitOf(a), DigitOf(b)] + [DigitOf(c)] == [DigitOf(a), DigitOf(b), DigitOf(c)];
  }

  lemma DecimalReads(n: nat)
    requires n < 256
    ensures GuardOctet(Decimal(n)) == Some(n) && '.' !in Decimal(n)
  {
    var tens, c := Divide(n, 10);
    var a, b := Divide(tens, 10);
    if n < 10 {
      OneDigit(n);
    } else if n < 100 {
      TwoDigits(tens, c);
    } else {
      ThreeDigits(a, b, c);
    }
  }

  /** Prefixing a character other than the separator lengthens the first part. */
  lemma SplitCons(c: char, s: string, first: string, others: seq<string>)
    requires c != '.' && Split(s, '.') == [first] + others
    ensures Split([c] + s, '.') == [[c] + first] + others
  {
    assert ([c] + s)[1..] == s;
    assert ([first] + others)[1..] == others;
  }

  lemma {:induction false} SplitAtDot(a: string, rest: string)
    requires '.' !in a
    ensures Split(a + "." + rest, '.') == [a] + Split(rest, '.')
  {
    if a == "" {
      assert (a + "." + rest)[1..] == rest;
    } else {
      SplitAtDot(a[1..], rest);
      assert a[0] in a;
      SplitCons(a[0], a[1..] + "." + rest, a[1..], Split(rest, '.'));
      assert [a[0]] + (a[1..] + "." + rest) == a + "." + rest && [a[0]] + a[1..] == a;
    }
  }

  lemma {:induction false} SplitWhole(a: string)
    requires '.' !in a
    ensures Split(a, '.') == [a]
  {
    if a != "" {
      SplitWhole(a[1..]);
      assert a[0] in a;
      SplitCons(a[0], a[1..], a[1..], []);
      assert [a[0]] + a[1..] == a;
    }
  }

  lemma AccumulateSnoc(read: OctetReader, parts: seq<string>, part: string)
    requires Accumulate(read, parts).Some? && read(part).Some?
    ensures Accumulate(read, parts + [part]) == Some(Accumulate(read, parts).value * 256 + read(part).value)
  {
    assert (parts + [part])[..|parts|] == parts;
  }

  lemma SplitFour(p: string, q: string, r: string, s: string)
    requires '.' !in p && '.' !in q && '.' !in r && '.' !in s
    ensures Split(p + "." + (q + "." + (r + "." + s)), '.') == [p, q, r, s]
  {
    var rs := r + "." + s;
    var qrs := q + "." + rs;
    SplitWhole(s);
    SplitAtDot(r, s);
    SplitAtDot(q, rs);
    SplitAtDot(p, qrs);
  }

  lemma SplitQuad(a: nat, b: nat, c: nat, d: nat)
    requires a < 256 && b < 256 && c < 256 && d < 256
    ensures Split(Quad(a, b, c, d), '.') == [Decimal(a), Decimal(b), Decimal(c), Decimal(d)]
  {
    DecimalReads(a);
    DecimalReads(b);
    DecimalReads(c);
    DecimalReads(d);
    SplitFour(Decimal(a), Decimal(b), Decimal(c), Decimal(d));
  }

  function Joined(a: nat, b: nat, c: nat, d: nat): nat {
    ((a * 256 + b) * 256 + c) * 256 + d
  }

  lemma ParseQuad(a: nat, b: nat, c: nat, d: nat)
    requires a < 256 && b < 256 && c < 256 && d < 256
    ensures Parse(GuardOctet, Quad(a, b, c, d)) == Some(Joined(a, b, c, d))
  {
    DecimalReads(a);
    DecimalReads(b);
    DecimalReads(c);
    DecimalReads(d);
    SplitQuad(a, b, c, d);
    var p, q, r, s := Decimal(a), Decimal(b), Decimal(c), Decimal(d);
    AccumulateSnoc(GuardOctet, [], p);
    assert [] + [p] == [p];
    AccumulateSnoc(GuardOctet, [p], q);
    assert [p] + [q] == [p, q];
    AccumulateSnoc(GuardOctet, [p, q], r);
    assert [p, q] + [r] == [p, q, r];
    AccumulateSnoc(GuardOctet, [p, q, r], s);
    assert [p, q, r] + [s] == [p, q, r, s];
    UnsignedAddress(Joined(a, b, c, d));
  }

  /** Printing then parsing a dotted quad is the identity on every 32-bit value. */
  lemma PrintParse(x: nat)
    requires Address(x)
    ensures Parse(GuardOctet, Dotted(x)) == Some(x)
  {
    ParseQuad(x / 0x100_0000, x / 0x1_0000 % 256, x / 0x100 % 256, x % 256);
    Rejoined(x);
  }

  lemma Rejoined(x: nat)
    ensures Joined(x / 0x100_0000, x / 0x1_0000 % 256, x / 0x100 % 256, x % 256) == x
  {
    NestedQuotient(x, 0x100, 0x100);
    NestedQuotient(x, 0x1_0000, 0x100);
    QuotientForm(x, 256);
    QuotientForm(x / 256, 256);
    QuotientForm(x / 0x1_0000, 256);
  }

  // ---------------------------------------------------------------- the blocked set

  predicate InRange(ip: nat, cidrBase: string, bits: nat)
    requires bits <= 32
  {
    match Parse(GuardOctet, cidrBase)
    case None => false
    case Some(base) => SameUnderMask(ip, base, bits)
  }

  predicate IsBlockedIpv4(ip: string) {
    match Parse(GuardOctet, ip)
    case None => true
    case Some(n) =>
      || InRange(n, "0.0.0.0", 8)
      || InRange(n, "10.0.0.0", 8)
      || InRange(n, "100.64.0.0", 10)
      || InRange(n, "127.0.0.0", 8)
      || InRange(n, "169.254.0.0", 16)
      || InRange(n, "172.16.0.0", 12)
      || InRange(n, "192.0.0.0", 24)
      || InRange(n, "192.168.0.0", 16)
      || InRange(n, "198.18.0.0", 15)
      || InRange(n, "224.0.0.0", 4)
      || InRange(n, "240.0.0.0", 4)
  }

  /** The blocked addresses as plain intervals. */
  predicate InBlockedInterval(n: nat) {
    || n <= 0x00ff_ffff
    || 0x0a00_0000 <= n <= 0x0aff_ffff
    || 0x6440_0000 <= n <= 0x647f_ffff
    || 0x7f00_0000 <= n <= 0x7fff_ffff
    || 0xa9fe_0000 <= n <= 0xa9fe_ffff
    || 0xac10_0000 <= n <= 0xac1f_ffff
    || 0xc000_0000 <= n <= 0xc000_00ff
    || 0xc0a8_0000 <= n <= 0xc0a8_ffff
    || 0xc612_0000 <= n <= 0xc613_ffff
    || 0xe000_0000 <= n <= 0xffff_ffff
  }

  lemma RangeIsInterval(n: nat, text: string, a: nat, b: nat, c: nat, d: nat, bits: nat, size: nat)
    requires Address(n) && a < 256 && b < 256 && c < 256 && d < 256 && bits <= 32
    requires text == Quad(a, b, c, d) && size == Pow2(32 - bits)
    requires Joined(a, b, c, d) % size == 0
    ensures var base := Joined(a, b, c, d);
            InRange(n, text, bits) <==> base <= n < base + size
  {
    var base := Joined(a, b, c, d);
    ParseQuad(a, b, c, d);
    MaskIsBlock(n, base, bits);
    BlockIsInterval(n, base, bits);
  }

  lemma Sizes()
    ensures Pow2(8) == 0x100 && Pow2(16) == 0x1_0000 && Pow2(17) == 0x2_0000 && Pow2(20) == 0x10_0000
    ensures Pow2(22) == 0x40_0000 && Pow2(24) == 0x100_0000 && Pow2(28) == 0x1000_0000
  {
    assert Pow2(4) == 16;
    Pow2Adds(4, 4);
    Pow2Adds(8, 8);
    Pow2Adds(16, 4);
    Pow2Adds(16, 8);
    Pow2Adds(24, 4);
  }

  lemma BlockThisNetwork(n: nat)
    requires Address(n)
    ensures InRange(n, "0.0.0.0", 8) <==> 0 <= n <= 0x00ff_ffff
  {
    Sizes();
    RangeIsInterval(n, "0.0.0.0", 0, 0, 0, 0, 8, 0x100_0000);
  }

  lemma BlockTenNet(n: nat)
    requires Address(n)
    ensures InRange(n, "10.0.0.0", 8) <==> 0x0a00_0000 <= n <= 0x0aff_ffff
  {
    Sizes();
    RangeIsInterval(n, "10.0.0.0", 10, 0, 0, 0, 8, 0x100_0000);
  }

  lemma BlockCarrierNat(n: nat)
    requires Address(n)
    ensures InRange(n, "100.64.0.0", 10) <==> 0x6440_0000 <= n <= 0x647f_ffff
  {
    Sizes();
    RangeIsInterval(n, "100.64.0.0", 100, 64, 0, 0, 10, 0x40_0000);
  }

  lemma BlockLoopback(n: nat)
    requires Address(n)
    ensures InRange(n, "127.0.0.0", 8) <==> 0x7f00_0000 <= n <= 0x7fff_ffff
  {
    Sizes();
    RangeIsInterval(n, "127.0.0.0", 127, 0, 0, 0, 8, 0x100_0000);
  }

  lemma BlockLinkLocal(n: nat)
    requires Address(n)
    ensures InRange(n, "169.254.0.0", 16) <==> 0xa9fe_0000 <= n <= 0xa9fe_ffff
  {
    Sizes();
    RangeIsInterval(n, "169.254.0.0", 169, 254, 0, 0, 16, 0x1_0000);
  }

  lemma BlockPrivate172(n: nat)
    requires Address(n)
    ensures InRange(n, "172.16.0.0", 12) <==> 0xac10_0000 <= n <= 0xac1f_ffff
  {
    Sizes();
    RangeIsInterval(n, "172.16.0.0", 172, 16, 0, 0, 12, 0x10_0000);
  }

  lemma BlockProtocol(n: nat)
    requires Address(n)
    ensures InRange(n, "192.0.0.0", 24) <==> 0xc000_0000 <= n <= 0xc000_00ff
  {
    Sizes();
    RangeIsInterval(n, "192.0.0.0", 192, 0, 0, 0, 24, 0x100);
  }

  lemma BlockPrivate192(n: nat)
    requires Address(n)
    ensures InRange(n, "192.168.0.0", 16) <==> 0xc0a8_0000 <= n <= 0xc0a8_ffff
  {
    Sizes();
    RangeIsInterval(n, "192.168.0.0", 192, 168, 0, 0, 16, 0x1_0000);
  }

  lemma BlockBenchmark(n: nat)
    requires Address(n)
    ensures InRange(n, "198.18.0.0", 15) <==> 0xc612_0000 <= n <= 0xc613_ffff
  {
    Sizes();
    RangeIsInterval(n, "198.18.0.0", 198, 18, 0, 0, 15, 0x2_0000);
  }

  lemma BlockMulticast(n: nat)
    requires Address(n)
    ensures InRange(n, "224.0.0.0", 4) <==> 0xe000_0000 <= n <= 0xefff_ffff
  {
    Sizes();
    RangeIsInterval(n, "224.0.0.0", 224, 0, 0, 0, 4, 0x1000_0000);
  }

  lemma BlockReserved(n: nat)
    requires Address(n)
    ensures InRange(n, "240.0.0.0", 4) <==> 0xf000_0000 <= n <= 0xffff_ffff
  {
    Sizes();
    RangeIsInterval(n, "240.0.0.0", 240, 0, 0, 0, 4, 0x1000_0000);
  }

  lemma ParsedIsAddress(read: OctetReader, text: string)
    ensures Parse(read, text).Some? ==> Address(Parse(read, text).value)
  {
  }

  /** The guard blocks exactly the unparseable texts and the addresses in a fixed union of intervals. */
  lemma BlockedExactly(ip: string)
    ensures IsBlockedIpv4(ip) <==> Parse(GuardOctet, ip).None? || InBlockedInterval(Parse(GuardOctet, ip).value)
  {
    if Parse(GuardOctet, ip).Some? {
      var n := Parse(GuardOctet, ip).value;
      ParsedIsAddress(GuardOctet, ip);
      BlockThisNetwork(n);
      BlockTenNet(n);
      BlockCarrierNat(n);
      BlockLoopback(n);
      BlockLinkLocal(n);
      BlockPrivate172(n);
      BlockProtocol(n);
      BlockPrivate192(n);
      BlockBenchmark(n);
      BlockMulticast(n);
      BlockReserved(n);
    }
  }

  // ---------------------------------------------------------------- the client-IP filter

  /** `entry` is `base/bits` with a readable base, and `ip` lies in that block. */
  ghost predicate InListedBlock(number: string -> Option<int>, ip: string, entry: string) {
    exists base, prefix ::
      && entry == base + "/" + prefix && '/' !in base
      && number(prefix).Some? && 0 <= number(prefix).value <= 32
      && Parse(part => FilterOctet(number, part), ip).Some?
      && Parse(part => FilterOctet(number, part), base).Some?
      && SameBlock(Parse(part => FilterOctet(number, part), ip).value,
                   Parse(part => FilterOctet(number, part), base).value, number(prefix).value)
  }

  /** Exact text, or membership in the listed block by plain quotient arithmetic. */
  method MatchesEntry(number: string -> Option<int>, ip: string, entry: string) returns (matches: bool)
    ensures matches <==> ip == entry || InListedBlock(number, ip, entry)
  {
    if ip == entry {
      return true;
    }
    var slash := IndexOf(entry, '/');
    IndexOfIsFirst(entry, '/');
    if slash.None? {
      return false;
    }
    var base, prefix := entry[..slash.value], entry[slash.value + 1..];
    assert entry == base + "/" + prefix;
    forall b, p | entry == b + "/" + p && '/' !in b ensures b == base && p == prefix {
      IndexOfSeparator(b, p, '/');
      assert entry[..|b|] == b && entry[|b| + 1..] == p;
    }
    var bits := number(prefix);
    if bits.None? || bits.value < 0 || bits.value > 32 {
      return false;
    }
    var ipInt := ToInt(number, ip);
    var baseInt := ToInt(number, base);
    if ipInt.None? || baseInt.None? {
      return false;
    }
    MaskIsBlock(ipInt.value, baseInt.value, bits.value);
    return SameUnderMask(ipInt.value, baseInt.value, bits.value);
  }
}
