/** Which addresses count as public Internet destinations: mask tests against tables of blocks. Addresses
    are numbers below 2^32 and 2^128. */
module IpFilter {
  import opened Division

  // ---- bits as arithmetic -----------------------------------------------------------------------------------

  function Pow2(n: nat): (r: nat)
    ensures r > 0
  {
    if n == 0 then 1 else 2 * Pow2(n - 1)
  }

  const W32: nat := 0x1_0000_0000
  const W96: nat := 0x1_0000_0000_0000_0000_0000_0000
  const W128: nat := 0x1_0000_0000_0000_0000_0000_0000_0000_0000

  /** `a & b` */
  function BitAnd(a: nat, b: nat): nat {
    if a == 0 || b == 0 then 0
    else (if a % 2 == 1 && b % 2 == 1 then 1 else 0) + 2 * BitAnd(a / 2, b / 2)
  }

  /** `x << n` in a word with `size` values: a bit shifted out at the top is lost. */
  function ShiftLeft(x: nat, n: nat, size: nat): nat {
    if n == 0 then x
    else
      var doubled := 2 * ShiftLeft(x, n - 1, size);
      if doubled >= size then doubled - size else doubled
  }

  /** `MAX << (width - prefix)` */
  function Mask(width: nat, prefix: nat): nat
    requires prefix <= width
  {
    if prefix == 0 then 0 else ShiftLeft(Pow2(width) - 1, width - prefix, Pow2(width))
  }

  predicate InBlock(width: nat, ip: nat, net: nat, prefix: nat)
    requires prefix <= width
  {
    BitAnd(ip, Mask(width, prefix)) == BitAnd(net, Mask(width, prefix))
  }

  lemma {:induction false} Pow2Sum(a: nat, b: nat)
    ensures Pow2(a + b) == Pow2(a) * Pow2(b)
  {
    if a > 0 {
      Pow2Sum(a - 1, b);
      assert Pow2(a) * Pow2(b) == 2 * (Pow2(a - 1) * Pow2(b));
    }
  }

  /** The shifted mask is a run of ones at the top. */
  lemma {:induction false} ShiftedOnes(width: nat, n: nat)
    requires n < width
    ensures Pow2(n) <= Pow2(width)
    ensures ShiftLeft(Pow2(width) - 1, n, Pow2(width)) == Pow2(width) - Pow2(n)
  {
    Pow2Grows(n, width);
    if n > 0 {
      ShiftedOnes(width, n - 1);
    }
  }

  lemma LowestBit(a: nat, b: nat)
    ensures BitAnd(a, b) == (if a % 2 == 1 && b % 2 == 1 then 1 else 0) + 2 * BitAnd(a / 2, b / 2)
  {
  }

  lemma {:induction false} AndAllOnes(width: nat, a: nat)
    requires a < Pow2(width)
    ensures BitAnd(a, Pow2(width) - 1) == a
  {
    if width > 0 {
      AndAllOnes(width - 1, a / 2);
      LowestBit(a, Pow2(width) - 1);
      HalfOfOnes(Pow2(width - 1));
      hide BitAnd;
    }
  }

  /** Masking clears the low bits. */
  lemma {:induction false} AndTopOnes(width: nat, low: nat, a: nat)
    requires low <= width && a < Pow2(width)
    ensures Pow2(low) <= Pow2(width)
    ensures BitAnd(a, Pow2(width) - Pow2(low)) == a - a % Pow2(low)
    decreases width
  {
    Pow2Grows(low, width);
    if low == 0 {
      AndAllOnes(width, a);
    } else {
      var top, half := Pow2(width - 1), Pow2(low - 1);
      AndTopOnes(width - 1, low - 1, a / 2);
      assert Pow2(width) == 2 * top && Pow2(low) == 2 * half;
      hide Pow2, BitAnd;
      AndEven(a, top - half, half);
    }
  }

  lemma AndEven(a: nat, m: nat, half: nat)
    requires half > 0 && BitAnd(a / 2, m) == a / 2 - a / 2 % half
    ensures BitAnd(a, 2 * m) == a - a % (2 * half)
  {
    LowestBit(a, 2 * m);
    SplitRemainder(a, half);
    hide BitAnd;
    Halved(m);
  }

  lemma Halved(n: int)
    ensures 2 * n % 2 == 0 && 2 * n / 2 == n
  {
  }

  lemma HalfOfOnes(n: nat)
    requires n > 0
    ensures (2 * n - 1) % 2 == 1 && (2 * n - 1) / 2 == n - 1
  {
  }

  lemma SplitRemainder(a: nat, half: nat)
    requires half > 0
    ensures a % (2 * half) == a % 2 + 2 * (a / 2 % half)
  {
    var q, r := a / 2 / half, a / 2 % half;
    assert a == 2 * (q * half + r) + a % 2;
    assert 2 * (q * half) == q * (2 * half);
    QuotientAndRemainder(a, q, 2 * r + a % 2, 2 * half);
  }

  lemma {:induction false} Pow2Grows(a: nat, b: nat)
    requires a <= b
    ensures Pow2(a) <= Pow2(b)
  {
    if a < b {
      Pow2Grows(a, b - 1);
    }
  }

  /** The mask test is membership in the aligned range of the network: same quotient by its size. */
  lemma InBlockIff(width: nat, ip: nat, net: nat, prefix: nat)
    requires prefix <= width && ip < Pow2(width) && net < Pow2(width)
    ensures InBlock(width, ip, net, prefix) <==> ip / Pow2(width - prefix) == net / Pow2(width - prefix)
    ensures InBlock(width, ip, net, prefix) <==>
      var size := Pow2(width - prefix); net - net % size <= ip < net - net % size + size
  {
    var size := Pow2(width - prefix);
    if prefix == 0 {
      QuotientAndRemainder(ip, 0, ip, size);
      QuotientAndRemainder(net, 0, net, size);
    } else {
      ShiftedOnes(width, width - prefix);
      AndTopOnes(width, width - prefix, ip);
      AndTopOnes(width, width - prefix, net);
      hide BitAnd, Mask;
      SameQuotientIff(ip, net, size);
    }
    RangeIff(ip, net, size);
  }

  lemma SameQuotientIff(a: nat, b: nat, n: nat)
    requires n > 0
    ensures a - a % n == b - b % n <==> a / n == b / n
  {
    assert a - a % n == a / n * n && b - b % n == b / n * n;
    if a / n != b / n {
      NoSmallMultiple(a / n - b / n, n);
      assert (a / n - b / n) * n == a / n * n - b / n * n;
    }
  }

  lemma RangeIff(a: nat, b: nat, n: nat)
    requires n > 0
    ensures a / n == b / n <==> b - b % n <= a < b - b % n + n
  {
    var base := b / n;
    assert b - b % n == base * n;
    assert a == a / n * n + a % n;
    if b - b % n <= a < b - b % n + n {
      QuotientAndRemainder(a, base, a - base * n, n);
    }
  }

  // ---- the tables ----------------------------------------------------------------------------------------------

  datatype Block = Block(net: nat, prefix: nat)

  function V4(a: nat, b: nat, c: nat, d: nat): nat {
    0x100_0000 * a + 0x1_0000 * b + 0x100 * c + d
  }

  // The special-purpose IPv4 blocks, in the order of the table; the first one is 0.0.0.0/8.

  function NonPublicV4Low(): seq<Block> {
    [Block(0, 8), Block(V4(10, 0, 0, 0), 8), Block(V4(100, 64, 0, 0), 10), Block(V4(127, 0, 0, 0), 8),
     Block(V4(169, 254, 0, 0), 16), Block(V4(172, 16, 0, 0), 12)]
  }

  function NonPublicV4Mid(): seq<Block> {
    [Block(V4(192, 0, 0, 0), 24), Block(V4(192, 0, 2, 0), 24), Block(V4(192, 31, 196, 0), 24), Block(V4(192, 52, 193, 0), 24),
     Block(V4(192, 88, 99, 0), 24), Block(V4(192, 168, 0, 0), 16)]
  }

  function NonPublicV4High(): seq<Block> {
    [Block(V4(192, 175, 48, 0), 24), Block(V4(198, 18, 0, 0), 15), Block(V4(198, 51, 100, 0), 24),
     Block(V4(203, 0, 113, 0), 24), Block(V4(224, 0, 0, 0), 4), Block(V4(240, 0, 0, 0), 4)]
  }

  function NonPublicV4(): seq<Block> {
    NonPublicV4Low() + NonPublicV4Mid() + NonPublicV4High()
  }

  /** Bits above the first 32 are zero in every block of this table. */
  function V6Top(first: nat, second: nat): nat {
    (0x1_0000 * first + second) * W96
  }

  function NonPublicV6InGlobal(): seq<Block> {
    [Block(V6Top(0x2001, 0), 23), Block(V6Top(0x2001, 0x0db8), 32), Block(V6Top(0x2002, 0), 16), Block(V6Top(0x3fff, 0), 20)]
  }

  /** `any` over a table. */
  predicate InAny(width: nat, ip: nat, table: seq<Block>) {
    table != []
    && ((table[0].prefix <= width && InBlock(width, ip, table[0].net, table[0].prefix)) || InAny(width, ip, table[1..]))
  }

  predicate IsPublicV4(ip: nat) {
    !InAny(32, ip, NonPublicV4())
  }

  function Octet(ip: nat, i: nat): nat {
    if i == 0 then ip % 256 else Octet(ip / 256, i - 1)
  }

  predicate IsMapped(ip: nat) {
    ip / W32 == 0xFFFF
  }

  predicate IsNat64(ip: nat) {
    InBlock(128, ip, V6Top(0x0064, 0xff9b), 96)
  }

  predicate InGlobalUnicast(ip: nat) {
    InBlock(128, ip, V6Top(0x2000, 0), 3)
  }

  predicate IsPublicV6(ip: nat) {
    if IsMapped(ip) then IsPublicV4(ip % W32)
    else if IsNat64(ip) then
      IsPublicV4(V4(Octet(ip, 3), Octet(ip, 2), Octet(ip, 1), Octet(ip, 0)))
    else if !InGlobalUnicast(ip) then false
    else !InAny(128, ip, NonPublicV6InGlobal())
  }

  // ---- what the verdicts mean ------------------------------------------------------------------------------------

  lemma {:induction false} InAnyIff(width: nat, ip: nat, table: seq<Block>)
    ensures InAny(width, ip, table) <==>
      exists i :: 0 <= i < |table| && table[i].prefix <= width && InBlock(width, ip, table[i].net, table[i].prefix)
  {
    hide InBlock;
    if table != [] {
      InAnyIff(width, ip, table[1..]);
      assert table == [table[0]] + table[1..];
    }
  }

  predicate Covers(width: nat, b: Block, ip: nat)
    requires b.prefix <= width
  {
    b.net <= ip < b.net + Pow2(width - b.prefix)
  }

  /** Blocks of the tables are aligned, so each covers the addresses from its network on. */
  lemma AlignedBlock(width: nat, b: Block, ip: nat)
    requires b.prefix <= width && b.net < Pow2(width) && ip < Pow2(width)
    requires b.net % Pow2(width - b.prefix) == 0
    ensures InBlock(width, ip, b.net, b.prefix) <==> Covers(width, b, ip)
  {
    InBlockIff(width, ip, b.net, b.prefix);
  }

  lemma SmallPowers()
    ensures Pow2(8) == 0x100 && Pow2(12) == 0x1000 && Pow2(16) == 0x1_0000 && Pow2(17) == 0x2_0000 && Pow2(20) == 0x10_0000
    ensures Pow2(22) == 0x40_0000 && Pow2(24) == 0x100_0000 && Pow2(28) == 0x1000_0000 && Pow2(32) == 0x1_0000_0000
    ensures Pow2(9) == 0x200 && Pow2(29) == 0x2000_0000 && Pow2(0) == 1
  {
    assert Pow2(4) == 16;
    Pow2Sum(4, 4);
    Pow2Sum(8, 1);
    Pow2Sum(8, 4);
    Pow2Sum(8, 8);
    Pow2Sum(16, 1);
    Pow2Sum(16, 4);
    Pow2Sum(20, 2);
    Pow2Sum(16, 8);
    Pow2Sum(24, 4);
    Pow2Sum(28, 1);
    Pow2Sum(28, 4);
    assert Pow2(1) == 2 && Pow2(2) == 4;
  }

  ghost predicate IsAligned(width: nat, b: Block) {
    b.prefix <= width && b.net < Pow2(width) && b.net % Pow2(width - b.prefix) == 0
  }

  ghost predicate Aligned(width: nat, table: seq<Block>) {
    forall i :: 0 <= i < |table| ==> IsAligned(width, table[i])
  }

  lemma AnyIsCovered(width: nat, ip: nat, table: seq<Block>)
    requires Aligned(width, table) && ip < Pow2(width)
    ensures InAny(width, ip, table) <==> exists i :: 0 <= i < |table| && CoveredBy(width, table[i], ip)
  {
    InAnyIff(width, ip, table);
    hide InBlock, InAny, Covers, Pow2;
    forall i | 0 <= i < |table|
      ensures table[i].prefix <= width && (InBlock(width, ip, table[i].net, table[i].prefix) <==> Covers(width, table[i], ip))
    {
      assert IsAligned(width, table[i]);
      AlignedBlock(width, table[i], ip);
    }
  }

  lemma TableIsAligned()
    ensures Aligned(32, NonPublicV4())
  {
    LowIsAligned();
    MidIsAligned();
    HighIsAligned();
    hide NonPublicV4Low, NonPublicV4Mid, NonPublicV4High, IsAligned;
  }

  lemma LowIsAligned()
    ensures Aligned(32, NonPublicV4Low())
  {
    SmallPowers();
    var t := NonPublicV4Low();
    hide Pow2, IsAligned;
    ZeroIsAligned(t[0]);
    Multiple(t[1], 10);
    Multiple(t[2], 0x191);
    Multiple(t[3], 127);
    Multiple(t[4], 0xA9FE);
    Multiple(t[5], 0xAC1);
  }

  lemma MidIsAligned()
    ensures Aligned(32, NonPublicV4Mid())
  {
    SmallPowers();
    var t := NonPublicV4Mid();
    hide Pow2, IsAligned;
    Multiple(t[0], 0xC0_0000);
    Multiple(t[1], 0xC0_0002);
    Multiple(t[2], 0xC0_1FC4);
    Multiple(t[3], 0xC0_34C1);
    Multiple(t[4], 0xC0_5863);
    Multiple(t[5], 0xC0A8);
  }

  lemma HighIsAligned()
    ensures Aligned(32, NonPublicV4High())
  {
    SmallPowers();
    var t := NonPublicV4High();
    hide Pow2, IsAligned;
    Multiple(t[0], 0xC0_AF30);
    Multiple(t[1], 0x6309);
    Multiple(t[2], 0xC6_3364);
    Multiple(t[3], 0xCB_0071);
    Multiple(t[4], 14);
    Multiple(t[5], 15);
  }

  lemma Multiple(b: Block, q: nat)
    requires b.prefix <= 32 && b.net == q * Pow2(32 - b.prefix) && b.net < W32
    ensures IsAligned(32, b)
  {
    SmallPowers();
    hide Pow2;
    QuotientAndRemainder(b.net, q, 0, Pow2(32 - b.prefix));
  }

  lemma ZeroIsAligned(b: Block)
    requires b.prefix <= 32 && b.net == 0
    ensures IsAligned(32, b)
  {
    hide Pow2;
    ZeroRemainder(Pow2(32 - b.prefix));
  }

  lemma ZeroRemainder(n: nat)
    requires n > 0
    ensures 0 % n == 0
  {
  }

  /** An IPv4 address is public exactly when no block of the table covers it. */
  lemma PublicV4Iff(ip: nat)
    requires ip < W32
    ensures IsPublicV4(ip) <==> forall i :: 0 <= i < |NonPublicV4()| ==> !CoveredBy(32, NonPublicV4()[i], ip)
  {
    TableIsAligned();
    SmallPowers();
    hide InAny, NonPublicV4, Covers, Pow2, Aligned;
    AnyIsCovered(32, ip, NonPublicV4());
  }

  /** The same by the first three octets of an address. */
  predicate SpecialOctets(a: nat, b: nat, c: nat) {
    SpecialLow(a, b) || SpecialMid(a, b, c) || SpecialHigh(a, b, c)
  }

  /** 0/8, 10/8, 100.64/10, 127/8, 169.254/16 and 172.16/12. */
  predicate SpecialLow(a: nat, b: nat) {
    || a == 0 || a == 10 || (a == 100 && 64 <= b < 128) || a == 127
    || (a == 169 && b == 254) || (a == 172 && 16 <= b < 32)
  }

  /** Below 192: 0.0/24, 0.2/24, 31.196/24, 52.193/24, 88.99/24 and 168/16. */
  predicate SpecialMid(a: nat, b: nat, c: nat) {
    && a == 192
    && ((b == 0 && (c == 0 || c == 2)) || (b == 31 && c == 196) || (b == 52 && c == 193) || (b == 88 && c == 99) || b == 168)
  }

  /** 192.175.48/24, 198.18/15, 198.51.100/24, 203.0.113/24, 224/4 and 240/4. */
  predicate SpecialHigh(a: nat, b: nat, c: nat) {
    || (a == 192 && b == 175 && c == 48) || (a == 198 && (b == 18 || b == 19)) || (a == 198 && b == 51 && c == 100)
    || (a == 203 && b == 0 && c == 113) || 224 <= a < 240 || 240 <= a < 256
  }

  ghost predicate CoveredIn(table: seq<Block>, ip: nat) {
    exists i :: 0 <= i < |table| && CoveredBy(32, table[i], ip)
  }

  lemma LowByOctets(a: nat, b: nat, c: nat, d: nat)
    requires a < 256 && b < 256 && c < 256 && d < 256
    ensures CoveredIn(NonPublicV4Low(), V4(a, b, c, d)) <==> SpecialLow(a, b)
  {
    SmallPowers();
    hide Pow2;
    var t, ip := NonPublicV4Low(), V4(a, b, c, d);
    assert CoveredBy(32, t[0], ip) <==> a == 0;
    assert CoveredBy(32, t[1], ip) <==> a == 10;
    assert CoveredBy(32, t[2], ip) <==> a == 100 && 64 <= b < 128;
    assert CoveredBy(32, t[3], ip) <==> a == 127;
    assert CoveredBy(32, t[4], ip) <==> a == 169 && b == 254;
    assert CoveredBy(32, t[5], ip) <==> a == 172 && 16 <= b < 32;
  }

  lemma MidByOctets(a: nat, b: nat, c: nat, d: nat)
    requires a < 256 && b < 256 && c < 256 && d < 256
    ensures CoveredIn(NonPublicV4Mid(), V4(a, b, c, d)) <==> SpecialMid(a, b, c)
  {
    SmallPowers();
    hide Pow2;
    var t, ip := NonPublicV4Mid(), V4(a, b, c, d);
    assert CoveredBy(32, t[0], ip) <==> a == 192 && b == 0 && c == 0;
    assert CoveredBy(32, t[1], ip) <==> a == 192 && b == 0 && c == 2;
    assert CoveredBy(32, t[2], ip) <==> a == 192 && b == 31 && c == 196;
    assert CoveredBy(32, t[3], ip) <==> a == 192 && b == 52 && c == 193;
    assert CoveredBy(32, t[4], ip) <==> a == 192 && b == 88 && c == 99;
    assert CoveredBy(32, t[5], ip) <==> a == 192 && b == 168;
  }

  lemma HighByOctets(a: nat, b: nat, c: nat, d: nat)
    requires a < 256 && b < 256 && c < 256 && d < 256
    ensures CoveredIn(NonPublicV4High(), V4(a, b, c, d)) <==> SpecialHigh(a, b, c)
  {
    SmallPowers();
    hide Pow2;
    var t, ip := NonPublicV4High(), V4(a, b, c, d);
    assert CoveredBy(32, t[0], ip) <==> a == 192 && b == 175 && c == 48;
    assert CoveredBy(32, t[1], ip) <==> a == 198 && (b == 18 || b == 19);
    assert CoveredBy(32, t[2], ip) <==> a == 198 && b == 51 && c == 100;
    assert CoveredBy(32, t[3], ip) <==> a == 203 && b == 0 && c == 113;
    assert CoveredBy(32, t[4], ip) <==> 224 <= a < 240;
    assert CoveredBy(32, t[5], ip) <==> 240 <= a < 256;
  }

  lemma CoveredInEither(s: seq<Block>, t: seq<Block>, ip: nat)
    ensures CoveredIn(s + t, ip) <==> CoveredIn(s, ip) || CoveredIn(t, ip)
  {
    hide CoveredBy;
    if i :| 0 <= i < |s| && CoveredBy(32, s[i], ip) {
      assert (s + t)[i] == s[i];
    }
    if i :| 0 <= i < |t| && CoveredBy(32, t[i], ip) {
      assert (s + t)[|s| + i] == t[i];
    }
  }

  /** An IPv4 address is public exactly when its octets name none of the special-purpose ranges. */
  lemma PublicV4ByOctets(a: nat, b: nat, c: nat, d: nat)
    requires a < 256 && b < 256 && c < 256 && d < 256
    ensures IsPublicV4(V4(a, b, c, d)) <==> !SpecialOctets(a, b, c)
  {
    PublicV4Iff(V4(a, b, c, d));
    LowByOctets(a, b, c, d);
    MidByOctets(a, b, c, d);
    HighByOctets(a, b, c, d);
    CoveredInEither(NonPublicV4Low(), NonPublicV4Mid(), V4(a, b, c, d));
    CoveredInEither(NonPublicV4Low() + NonPublicV4Mid(), NonPublicV4High(), V4(a, b, c, d));
    hide CoveredBy, NonPublicV4Low, NonPublicV4Mid, NonPublicV4High, IsPublicV4, SpecialLow, SpecialMid, SpecialHigh, V4;
  }

  predicate CoveredBy(width: nat, b: Block, ip: nat) {
    b.prefix <= width && Covers(width, b, ip)
  }

  // ---- IPv6 by its leading groups ---------------------------------------------------------------------------------

  /** The first 32 of the 128 bits. */
  function Top(ip: nat): nat {
    ip / W96
  }

  lemma DivideTwice(a: nat, m: nat, n: nat)
    requires m > 0 && n > 0
    ensures m * n > 0 && a / (m * n) == a / m / n
  {
    var q, r := a / m, a % m;
    var q', r' := q / n, q % n;
    assert a == q * m + r && q == q' * n + r';
    Below(r', n, r, m);
    Regrouped(a, q, r, q', r', m, n);
    QuotientAndRemainder(a, q', r' * m + r, m * n);
  }

  lemma Regrouped(a: nat, q: nat, r: nat, q': nat, r': nat, m: nat, n: nat)
    requires a == q * m + r && q == q' * n + r'
    ensures a == q' * (m * n) + (r' * m + r)
  {
    assert q * m == (q' * n) * m + r' * m;
    assert (q' * n) * m == q' * (m * n);
  }

  lemma Below(r': nat, n: nat, r: nat, m: nat)
    requires r' < n && r < m
    ensures 0 <= r' * m + r < m * n
  {
    NonNegative(r', m);
    NonNegative(n - 1 - r', m);
    assert (n - 1 - r') * m == n * m - m - r' * m;
    assert n * m == m * n;
  }

  lemma BigPowers()
    ensures Pow2(64) == W32 * W32 && Pow2(96) == W96 && Pow2(128) == W128
  {
    SmallPowers();
    Pow2Sum(32, 32);
    Pow2Sum(64, 32);
    Pow2Sum(96, 32);
    hide Pow2;
  }

  lemma BigPower(prefix: nat)
    requires prefix <= 32
    ensures Pow2(128 - prefix) == W96 * Pow2(32 - prefix)
  {
    BigPowers();
    Pow2Sum(96, 32 - prefix);
    hide Pow2;
  }

  /** Prefixes of at most 32 bits only look at the first 32 bits. */
  lemma TopDecides(ip: nat, first: nat, second: nat, prefix: nat)
    requires prefix <= 32 && ip < W128 && first < 0x1_0000 && second < 0x1_0000
    ensures InBlock(128, ip, V6Top(first, second), prefix)
      <==> Top(ip) / Pow2(32 - prefix) == (0x1_0000 * first + second) / Pow2(32 - prefix)
  {
    var top := 0x1_0000 * first + second;
    var unit := W96;
    SmallPowers();
    BigPowers();
    BigPower(prefix);
    assert top < Pow2(32);
    hide Pow2, InBlock;
    Below(top, Pow2(32), 0, unit);
    QuotientAndRemainder(top * unit, top, 0, unit);
    InBlockIff(128, ip, top * unit, prefix);
    DivideTwice(ip, unit, Pow2(32 - prefix));
    DivideTwice(top * unit, unit, Pow2(32 - prefix));
  }

  /** The first two 16-bit groups of an address. */
  function Group0(ip: nat): nat {
    Top(ip) / 0x1_0000
  }

  function Group1(ip: nat): nat {
    Top(ip) % 0x1_0000
  }

  /** The blocks of the table by the first two groups: 2001::/23, 2001:db8::/32, 2002::/16, 3fff::/20. */
  predicate CarvedBy(ip: nat, i: nat) {
    match i
    case 0 => Group0(ip) == 0x2001 && Group1(ip) < 0x200
    case 1 => Group0(ip) == 0x2001 && Group1(ip) == 0x0db8
    case 2 => Group0(ip) == 0x2002
    case 3 => Group0(ip) == 0x3fff && Group1(ip) < 0x1000
    case _ => false
  }

  lemma TopArithmetic(top: nat)
    ensures top / 0x2000_0000 == 1 <==> 0x2000 <= top / 0x1_0000 <= 0x3fff
    ensures top / 0x200 == 0x2001_0000 / 0x200 <==> top / 0x1_0000 == 0x2001 && top % 0x1_0000 < 0x200
    ensures top == 0x2001_0db8 <==> top / 0x1_0000 == 0x2001 && top % 0x1_0000 == 0x0db8
    ensures top / 0x1000 == 0x3fff_0000 / 0x1000 <==> top / 0x1_0000 == 0x3fff && top % 0x1_0000 < 0x1000
  {
  }

  lemma CarvedBlock(ip: nat, i: nat)
    requires ip < W128 && i < 4
    ensures |NonPublicV6InGlobal()| == 4
    ensures var b := NonPublicV6InGlobal()[i]; b.prefix <= 128 && (InBlock(128, ip, b.net, b.prefix) <==> CarvedBy(ip, i))
  {
    hide InBlock, V6Top, Top;
    SmallPowers();
    TopArithmetic(Top(ip));
    match i {
      case 0 => TopDecides(ip, 0x2001, 0, 23);
      case 1 => TopDecides(ip, 0x2001, 0x0db8, 32);
      case 2 => TopDecides(ip, 0x2002, 0, 16);
      case 3 => TopDecides(ip, 0x3fff, 0, 20);
    }
    hide Pow2;
  }

  lemma GlobalIff(ip: nat)
    requires ip < W128
    ensures InGlobalUnicast(ip) <==> 0x2000 <= Group0(ip) <= 0x3fff
  {
    hide InBlock, V6Top, Top;
    TopDecides(ip, 0x2000, 0, 3);
    SmallPowers();
    TopArithmetic(Top(ip));
    hide Pow2;
  }

  /** Inside ::ffff:0:0/96 or 64:ff9b::/96. */
  predicate Embeds(ip: nat) {
    0xFFFF * W32 <= ip < 0x1_0000 * W32 || 0x64_ff9b * W96 <= ip < 0x64_ff9b * W96 + W32
  }

  lemma EmbedsIff(ip: nat)
    requires ip < W128
    ensures Embeds(ip) <==> IsMapped(ip) || IsNat64(ip)
  {
    SmallPowers();
    BigPowers();
    hide Pow2, InBlock;
    InBlockIff(128, ip, V6Top(0x0064, 0xff9b), 96);
    if IsMapped(ip) {
      assert ip == 0xFFFF * W32 + ip % W32;
    }
    if 0xFFFF * W32 <= ip < 0x1_0000 * W32 {
      QuotientAndRemainder(ip, 0xFFFF, ip - 0xFFFF * W32, W32);
    }
  }

  /** Apart from embedded IPv4, an IPv6 address is public exactly inside 2000::/3 and outside the four
      carved-out blocks. */
  lemma PublicV6Iff(ip: nat)
    requires ip < W128 && !Embeds(ip)
    ensures IsPublicV6(ip) <==> 0x2000 <= Group0(ip) <= 0x3fff && forall i :: 0 <= i < 4 ==> !CarvedBy(ip, i)
  {
    hide InBlock, InAny, Group0, Group1, CarvedBy, V6Top, NonPublicV6InGlobal, IsPublicV4, IsMapped, IsNat64, InGlobalUnicast,
      Embeds;
    EmbedsIff(ip);
    GlobalIff(ip);
    InAnyIff(128, ip, NonPublicV6InGlobal());
    forall i: nat | i < 4
      ensures |NonPublicV6InGlobal()| == 4
      ensures var b := NonPublicV6InGlobal()[i]; b.prefix <= 128 && (InBlock(128, ip, b.net, b.prefix) <==> CarvedBy(ip, i))
    {
      CarvedBlock(ip, i);
    }
    CarvedBlock(ip, 0);
  }

  // ---- embedded IPv4 -------------------------------------------------------------------------------------------------

  /** The four octets of the embedded address are the low 32 bits. */
  lemma OctetsRecompose(ip: nat)
    ensures V4(Octet(ip, 3), Octet(ip, 2), Octet(ip, 1), Octet(ip, 0)) == ip % W32
  {
    var q1 := ip / 256;
    var q2 := q1 / 256;
    var q3 := q2 / 256;
    var q4 := q3 / 256;
    var low := V4(q3 % 256, q2 % 256, q1 % 256, ip % 256);
    assert ip == q4 * W32 + low;
    QuotientAndRemainder(ip, q4, low, W32);
    OctetIs(ip, q1, q2, q3);
  }

  lemma OctetIs(ip: nat, q1: nat, q2: nat, q3: nat)
    requires q1 == ip / 256 && q2 == q1 / 256 && q3 == q2 / 256
    ensures Octet(ip, 0) == ip % 256 && Octet(ip, 1) == q1 % 256 && Octet(ip, 2) == q2 % 256 && Octet(ip, 3) == q3 % 256
  {
    assert Octet(q1, 0) == q1 % 256 && Octet(q2, 0) == q2 % 256 && Octet(q3, 0) == q3 % 256;
    assert Octet(q1, 1) == Octet(q2, 0) && Octet(q2, 1) == Octet(q3, 0);
    assert Octet(q1, 2) == Octet(q2, 1);
    assert Octet(ip, 1) == Octet(q1, 0);
    assert Octet(ip, 2) == Octet(q1, 1);
    assert Octet(ip, 3) == Octet(q1, 2);
  }

  /** A mapped address (section 2.5.5.2 of RFC 4291) or a NAT64 address (section 2.1 of RFC 6052) is
      judged exactly as the IPv4 address in its low 32 bits. */
  lemma EmbeddedDecides(ip: nat)
    requires ip < W128 && Embeds(ip)
    ensures IsPublicV6(ip) == IsPublicV4(ip % W32)
  {
    OctetsRecompose(ip);
    EmbedsIff(ip);
    hide IsNat64, IsMapped, InBlock, IsPublicV4, Octet, V4, V6Top, InAny, Embeds;
  }

  /** Both ranges reach every IPv4 address. */
  lemma EmbeddingsOf(v4: nat)
    requires v4 < W32
    ensures Embeds(0xFFFF * W32 + v4) && (0xFFFF * W32 + v4) % W32 == v4
    ensures Embeds(0x64_ff9b * W96 + v4) && (0x64_ff9b * W96 + v4) % W32 == v4
  {
  }
}
