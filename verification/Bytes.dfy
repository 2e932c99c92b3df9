/** Octets, fixed-width integers and the bit operations the coordinator applies to them.

    `byte` is std::uint8_t. Every narrowing cast of the source is written out as a remainder,
    and every shift by a constant as a division or a multiplication. */
module Bytes {

  type byte = x: int | 0 <= x < 256

  type Bytes32 = s: seq<byte> | |s| == 32 witness Zeros(32)

  datatype Option<+T> = None | Some(value: T)

  const TWO_31: int := 0x8000_0000
  const TWO_32: int := 0x1_0000_0000
  const TWO_64: int := 0x1_0000_0000_0000_0000

  /** ++ on a std::uint32_t. */
  function Inc32(v: nat): nat {
    if v == TWO_32 - 1 then 0 else v + 1
  }

  /** ++ on a std::uint64_t. */
  function Inc64(v: nat): nat {
    if v == TWO_64 - 1 then 0 else v + 1
  }

  function Zeros(n: nat): (s: seq<byte>)
    ensures |s| == n
  {
    seq(n, _ => 0)
  }

  function Min(a: int, b: int): int {
    if a <= b then a else b
  }

  // ---------------------------------------------------------------- byte strings

  function Concat(parts: seq<seq<byte>>): seq<byte> {
    if parts == [] then [] else parts[0] + Concat(parts[1..])
  }

  lemma Assoc(a: seq<byte>, b: seq<byte>, c: seq<byte>)
    ensures (a + b) + c == a + (b + c)
  {
  }

  lemma {:induction false} ConcatAppend(a: seq<seq<byte>>, b: seq<seq<byte>>)
    ensures Concat(a + b) == Concat(a) + Concat(b)
  {
    if a == [] {
      assert a + b == b;
    } else {
      ConcatAppend(a[1..], b);
      assert (a + b)[1..] == a[1..] + b;
      Assoc(a[0], Concat(a[1..]), Concat(b));
    }
  }

  /** std::to_string. */
  function Decimal(n: nat): string {
    (if n < 10 then "" else Decimal(n / 10)) + [('0' as int + n % 10) as char]
  }

  predicate IsDigit(c: char) {
    '0' <= c <= '9'
  }

  /** The number that decimal digits stand for. */
  function FromDecimal(t: string): nat
    requires forall i :: 0 <= i < |t| ==> IsDigit(t[i])
  {
    if t == "" then 0 else
    assert IsDigit(t[|t| - 1]);
    FromDecimal(t[..|t| - 1]) * 10 + (t[|t| - 1] as int - '0' as int)
  }

  lemma {:induction false} DecimalReadsBack(n: nat)
    ensures Decimal(n) != "" && forall i :: 0 <= i < |Decimal(n)| ==> IsDigit(Decimal(n)[i])
    ensures FromDecimal(Decimal(n)) == n
  {
    var t := Decimal(n);
    if n >= 10 {
      DecimalReadsBack(n / 10);
      assert t[..|t| - 1] == Decimal(n / 10);
    } else {
      assert t[..|t| - 1] == "";
    }
  }

  lemma DecimalInjective(m: nat, n: nat)
    requires Decimal(m) == Decimal(n)
    ensures m == n
  {
    DecimalReadsBack(m);
    DecimalReadsBack(n);
  }

  // ---------------------------------------------------------------- integers as octets

  /** The low n octets of v, most significant first. */
  function BigEndian(n: nat, v: nat): (s: seq<byte>)
    ensures |s| == n
  {
    if n == 0 then [] else BigEndian(n - 1, v / 256) + [v % 256]
  }

  /** The low n octets of v, least significant first. */
  function LittleEndian(n: nat, v: nat): (s: seq<byte>)
    ensures |s| == n
  {
    if n == 0 then [] else [v % 256] + LittleEndian(n - 1, v / 256)
  }

  function FromBigEndian(s: seq<byte>): nat {
    if s == [] then 0 else FromBigEndian(s[..|s| - 1]) * 256 + s[|s| - 1]
  }

  function Pow256(n: nat): nat {
    if n == 0 then 1 else 256 * Pow256(n - 1)
  }

  lemma {:induction false} BigEndianRoundTrip(n: nat, v: nat)
    requires v < Pow256(n)
    ensures FromBigEndian(BigEndian(n, v)) == v
  {
    if n > 0 {
      BigEndianRoundTrip(n - 1, v / 256);
      var s := BigEndian(n, v);
      assert s[..|s| - 1] == BigEndian(n - 1, v / 256);
    }
  }

  lemma Pow256Positive(n: nat)
    ensures Pow256(n) > 0
  {
  }

  lemma DivTwice(v: nat, m: nat)
    requires m > 0
    ensures v / 256 / m == v / (256 * m)
  {
    var q, r := v / 256 / m, v / 256 % m;
    assert v == 256 * (q * m + r) + v % 256;
    assert v == q * (256 * m) + (256 * r + v % 256) by {
      assert 256 * (q * m) == q * (256 * m);
    }
    assert 256 * r + v % 256 < 256 * m;
    ModUnique(v, 256 * m, q, 256 * r + v % 256);
  }

  /** Where each octet of a number stands: the most significant first. */
  lemma {:induction false} BigEndianAt(n: nat, v: nat, i: nat)
    requires i < n
    ensures Pow256(n - 1 - i) > 0 && BigEndian(n, v)[i] == v / Pow256(n - 1 - i) % 256
    decreases n
  {
    Pow256Positive(n - 1 - i);
    if i < n - 1 {
      BigEndianAt(n - 1, v / 256, i);
      DivTwice(v, Pow256(n - 2 - i));
    }
  }

  lemma {:induction false} LittleEndianZero(n: nat)
    ensures LittleEndian(n, 0) == Zeros(n)
  {
    if n > 0 {
      LittleEndianZero(n - 1);
    }
  }

  function Be16(v: nat): (s: seq<byte>)
    ensures |s| == 2
  {
    [v / 256 % 256, v % 256]
  }

  function Be32(v: nat): (s: seq<byte>)
    ensures |s| == 4
  {
    [v / 0x100_0000 % 256, v / 0x1_0000 % 256, v / 256 % 256, v % 256]
  }

  function Le32(v: nat): (s: seq<byte>)
    ensures |s| == 4
  {
    [v % 256, v / 256 % 256, v / 0x1_0000 % 256, v / 0x100_0000 % 256]
  }

  function FromBe16(hi: byte, lo: byte): (v: nat)
    ensures v < 0x1_0000
  {
    hi * 256 + lo
  }

  function FromBe32(a: byte, b: byte, c: byte, d: byte): (v: nat)
    ensures v < TWO_32
  {
    a * 0x100_0000 + b * 0x1_0000 + c * 256 + d
  }

  /** The written-out forms are the general ones. */
  lemma Be16IsBigEndian(v: nat)
    ensures Be16(v) == BigEndian(2, v)
  {
    assert BigEndian(1, v / 256) == [v / 256 % 256];
  }

  lemma Be32IsBigEndian(v: nat)
    ensures Be32(v) == BigEndian(4, v)
  {
    ByteShifts(v);
    assert BigEndian(1, v / 0x100_0000) == [v / 0x100_0000 % 256];
    assert BigEndian(2, v / 0x1_0000) == BigEndian(1, v / 0x100_0000) + [v / 0x1_0000 % 256];
    assert BigEndian(3, v / 256) == BigEndian(2, v / 0x1_0000) + [v / 256 % 256];
  }

  lemma Le32IsLittleEndian(v: nat)
    ensures Le32(v) == LittleEndian(4, v)
  {
    ByteShifts(v);
    assert LittleEndian(1, v / 0x100_0000) == [v / 0x100_0000 % 256];
    assert LittleEndian(2, v / 0x1_0000) == [v / 0x1_0000 % 256] + LittleEndian(1, v / 0x100_0000);
    assert LittleEndian(3, v / 256) == [v / 256 % 256] + LittleEndian(2, v / 0x1_0000);
  }

  lemma ByteShifts(v: nat)
    ensures v / 256 / 256 == v / 0x1_0000 && v / 0x1_0000 / 256 == v / 0x100_0000
  {
  }

  lemma FixedReads(a: byte, b: byte, c: byte, d: byte)
    ensures FromBe16(a, b) == FromBigEndian([a, b]) && FromBe32(a, b, c, d) == FromBigEndian([a, b, c, d])
  {
    assert [a, b, c, d][..3] == [a, b, c] && [a, b, c][..2] == [a, b] && [a, b][..1] == [a] && [a][..0] == [];
    assert FromBigEndian([a]) == a;
  }

  // ---------------------------------------------------------------- bits

  function Pow2(n: nat): (p: nat)
    ensures p > 0
  {
    if n == 0 then 1 else 2 * Pow2(n - 1)
  }

  /** Bitwise exclusive or of the low n bits. */
  function Xor(n: nat, a: nat, b: nat): (r: nat)
    ensures r < Pow2(n)
  {
    if n == 0 then 0 else (a + b) % 2 + 2 * Xor(n - 1, a / 2, b / 2)
  }

  /** Bit i of a. */
  function Bit(a: nat, i: nat): nat {
    a / Pow2(i) % 2
  }

  /** Bit by bit, Xor is 1 where exactly one of its arguments is. */
  lemma {:induction false} XorBits(n: nat, a: nat, b: nat, i: nat)
    requires i < n
    ensures Bit(Xor(n, a, b), i) == if Bit(a, i) == Bit(b, i) then 0 else 1
    decreases n
  {
    XorHalves(n, a, b);
    if i == 0 {
      SumBit(a, b);
    } else {
      XorBits(n - 1, a / 2, b / 2, i - 1);
      HalfBit(Xor(n, a, b), i);
      HalfBit(a, i);
      HalfBit(b, i);
    }
  }

  lemma XorHalves(n: nat, a: nat, b: nat)
    requires n > 0
    ensures Xor(n, a, b) % 2 == (a + b) % 2 && Xor(n, a, b) / 2 == Xor(n - 1, a / 2, b / 2)
  {
  }

  lemma SumBit(a: nat, b: nat)
    ensures (a + b) % 2 == if a % 2 == b % 2 then 0 else 1
  {
  }

  lemma HalfBit(a: nat, i: nat)
    requires i > 0
    ensures Bit(a, i) == Bit(a / 2, i - 1)
  {
    var p := Pow2(i - 1);
    DivModTwice(a, p);
    var q, r := a / 2 / p, a / 2 % p;
    assert a / 2 == q * p + r;
    assert a == q * (2 * p) + (2 * r + a % 2) by {
      assert 2 * (q * p) == q * (2 * p);
    }
    ModUnique(a, 2 * p, q, 2 * r + a % 2);
  }

  /** Bitwise and of the low n bits. */
  function And(n: nat, a: nat, b: nat): nat {
    if n == 0 then 0 else a % 2 * (b % 2) + 2 * And(n - 1, a / 2, b / 2)
  }

  lemma DivModTwice(a: nat, p: nat)
    requires p > 0
    ensures a / 2 % p * 2 + a % 2 == a % (2 * p)
  {
    var q, r := a / 2 / p, a / 2 % p;
    assert a == 2 * (q * p + r) + a % 2;
    assert a == q * (2 * p) + (2 * r + a % 2) by {
      assert 2 * (q * p) == q * (2 * p);
    }
    ModUnique(a, 2 * p, q, 2 * r + a % 2);
  }

  lemma ModUnique(a: nat, m: nat, q: nat, r: nat)
    requires m > 0 && r < m && a == q * m + r
    ensures a % m == r && a / m == q
  {
    var d := a / m - q;
    assert d * m == r - a % m by {
      assert a == a / m * m + a % m;
      assert (a / m - q) * m == a / m * m - q * m;
    }
    MultipleBelow(d, m);
  }

  lemma MultipleBelow(d: int, m: int)
    requires m > 0 && -m < d * m < m
    ensures d == 0
  {
    assert d >= 1 ==> d * m >= m;
    assert d <= -1 ==> d * m <= -m;
  }

  /** Masking with n ones above j zeros clears exactly the low j bits. */
  lemma {:induction false} AndHighMask(n: nat, j: nat, a: nat)
    requires j <= n && a < Pow2(n)
    ensures Pow2(j) <= Pow2(n)
    ensures And(n, a, Pow2(n) - Pow2(j)) == a - a % Pow2(j)
  {
    if j == 0 {
      AndAllOnes(n, a);
    } else {
      AndHighMask(n - 1, j - 1, a / 2);
      DivModTwice(a, Pow2(j - 1));
      HighMaskHalves(n, j);
    }
  }

  lemma HighMaskHalves(n: nat, j: nat)
    requires 0 < j <= n && Pow2(j - 1) <= Pow2(n - 1)
    ensures Pow2(j) <= Pow2(n)
    ensures (Pow2(n) - Pow2(j)) % 2 == 0 && (Pow2(n) - Pow2(j)) / 2 == Pow2(n - 1) - Pow2(j - 1)
  {
  }

  lemma {:induction false} AndAllOnes(n: nat, a: nat)
    requires a < Pow2(n)
    ensures And(n, a, Pow2(n) - 1) == a
  {
    if n > 0 {
      AndAllOnes(n - 1, a / 2);
      assert (Pow2(n) - 1) / 2 == Pow2(n - 1) - 1 && (Pow2(n) - 1) % 2 == 1;
    }
  }
}
