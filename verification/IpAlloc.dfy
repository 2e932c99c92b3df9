/** src/ip_alloc.cpp: the address pools and the addresses of the n-th host in them. */
module IpAlloc {
  import opened Bytes

  /** inet_ntop and inet_pton on network-order octets: text that is never empty and reads back. */
  datatype AddressText = AddressText(
    ntop4: seq<byte> -> string, pton4: string -> Option<seq<byte>>,
    ntop6: seq<byte> -> string, pton6: string -> Option<seq<byte>>)

  ghost predicate Faithful(t: AddressText) {
    && (forall x: string ::
          (t.pton4(x).Some? ==> |t.pton4(x).value| == 4) && (t.pton6(x).Some? ==> |t.pton6(x).value| == 16))
    && (forall b: seq<byte> :: |b| == 4 ==> t.ntop4(b) != "" && t.pton4(t.ntop4(b)) == Some(b))
    && (forall b: seq<byte> :: |b| == 16 ==> t.ntop6(b) != "" && t.pton6(t.ntop6(b)) == Some(b))
  }

  datatype Allocator = Allocator(base4: nat, hosts: nat, base6: seq<byte>)

  /** `v << k` on std::uint32_t, for k below 32. */
  function Shl32(v: nat, k: nat): nat {
    v * Pow2(k) % TWO_32
  }

  /** The constructor, from the parsed prefixes; None where it throws. A shift of a 32-bit one by
      32 has no defined value in C++: `undefinedShift` is whatever the platform makes of it. */
  function NewAllocator(a4: nat, prefix4: int, a6: seq<byte>, prefix6: int, undefinedShift: nat): Option<Allocator>
    requires a4 < TWO_32 && |a6| == 16 && undefinedShift < TWO_32
  {
    if prefix4 < 0 || prefix4 > 32 || prefix6 < 0 || prefix6 > 128 then None else
    var mask := if prefix4 == 0 then 0 else Shl32(0xFFFF_FFFF, 32 - prefix4);
    var one := if prefix4 == 0 then undefinedShift else Shl32(1, 32 - prefix4);
    var hosts := if prefix4 >= 32 then 0 else (one - 1) % TWO_32;
    Some(Allocator(And(32, a4, mask), hosts, a6))
  }

  predicate InRange(a: Allocator, index: nat) {
    0 < index <= a.hosts
  }

  /** The IPv4 address of a host, in host order and with the wrap-around of a 32-bit addition. */
  function HostV4(a: Allocator, index: nat): nat {
    (a.base4 + index) % TWO_32
  }

  function HostV6(a: Allocator, index: nat): seq<byte>
    requires |a.base6| == 16
  {
    a.base6[..12] + Be32(index)
  }

  function Address(a: Allocator, t: AddressText, index: nat): Option<(string, string)>
    requires |a.base6| == 16
  {
    if InRange(a, index) then Some((t.ntop4(Be32(HostV4(a, index))), t.ntop6(HostV6(a, index)))) else None
  }

  method AddressFor(a: Allocator, t: AddressText, index: nat) returns (r: Option<(string, string)>)
    requires |a.base6| == 16
    ensures r == Address(a, t, index)
  {
    if index == 0 || index > a.hosts {
      return None;
    }
    var v4 := t.ntop4(Be32((a.base4 + index) % TWO_32));
    var v6 := new byte[16](i requires 0 <= i < 16 => a.base6[i]);
    v6[12] := index / 0x100_0000 % 256;
    v6[13] := index / 0x1_0000 % 256;
    v6[14] := index / 256 % 256;
    v6[15] := index % 256;
    assert v6[..] == HostV6(a, index);
    r := Some((v4, t.ntop6(v6[..])));
  }

  // ---------------------------------------------------------------- arithmetic of the pools

  lemma Pow2Of32()
    ensures Pow2(32) == TWO_32
  {
    assert Pow2(8) == 256;
    assert Pow2(16) == 0x1_0000;
    assert Pow2(24) == 0x100_0000;
  }

  lemma {:induction false} Pow2Monotone(i: nat, j: nat)
    requires i <= j
    ensures Pow2(i) <= Pow2(j)
    ensures i < j ==> 2 * Pow2(i) <= Pow2(j)
    decreases j
  {
    if i < j {
      Pow2Monotone(i, j - 1);
    }
  }

  /** For prefix lengths 1 to 31 the base is the address with its host bits cleared, and the pool
      has every host number but zero. */
  lemma PoolShape(a4: nat, p: nat, a6: seq<byte>, p6: nat, u: nat)
    requires a4 < TWO_32 && 1 <= p <= 31 && |a6| == 16 && p6 <= 128 && u < TWO_32
    ensures var a := NewAllocator(a4, p, a6, p6, u).value;
            a.base4 == a4 - a4 % Pow2(32 - p) && a.hosts == Pow2(32 - p) - 1 && a.base6 == a6
  {
    var k := 32 - p;
    Pow2Of32();
    Pow2Monotone(k, 32);
    ShiftedOnes(Pow2(k));
    AndHighMask(32, k, a4);
  }

  lemma ShiftedOnes(m: nat)
    requires 0 < m && 2 * m <= TWO_32
    ensures 0xFFFF_FFFF * m % TWO_32 == TWO_32 - m && 1 * m % TWO_32 == m
  {
    ModUnique(0xFFFF_FFFF * m, TWO_32, m - 1, TWO_32 - m);
  }

  /** Prefix lengths outside 0 to 32 and 0 to 128 are refused, and no others; a /32 has no host at all. */
  lemma PoolEdges(a4: nat, p: int, a6: seq<byte>, p6: int, u: nat, index: nat)
    requires a4 < TWO_32 && |a6| == 16 && u < TWO_32
    ensures var a := NewAllocator(a4, p, a6, p6, u);
            && (a.Some? <==> 0 <= p <= 32 && 0 <= p6 <= 128)
            && (a.Some? && p == 32 ==> !InRange(a.value, index))
            && (a.Some? ==> a.value.base6 == a6)
  {
  }

  /** A pool gives an address to exactly the indices from 1 to its number of hosts: the base plus the
      index, and the IPv6 base with the index for its last four octets. */
  lemma AddressIs(a: Allocator, t: AddressText, index: nat)
    requires |a.base6| == 16 && (1 <= index <= a.hosts ==> a.base4 + index < TWO_32)
    ensures Address(a, t, index).Some? <==> 1 <= index <= a.hosts
    ensures 1 <= index <= a.hosts ==>
              Address(a, t, index).value
              == (t.ntop4(BigEndian(4, a.base4 + index)), t.ntop6(a.base6[..12] + BigEndian(4, index)))
  {
    if 1 <= index <= a.hosts {
      Be32IsBigEndian(index);
      Be32IsBigEndian(a.base4 + index);
      NoOverflow(a, index);
    }
  }

  lemma NoOverflow(a: Allocator, index: nat)
    requires a.base4 + index < TWO_32
    ensures HostV4(a, index) == a.base4 + index
  {
  }

  /** Within the pool, base plus index does not overflow 32 bits and keeps the network prefix. */
  lemma HostKeepsPrefix(a4: nat, p: nat, a6: seq<byte>, p6: nat, u: nat, index: nat)
    requires a4 < TWO_32 && 1 <= p <= 31 && |a6| == 16 && p6 <= 128 && u < TWO_32
    requires InRange(NewAllocator(a4, p, a6, p6, u).value, index)
    ensures var a := NewAllocator(a4, p, a6, p6, u).value;
            && a.base4 + index < TWO_32
            && HostV4(a, index) / Pow2(32 - p) == a4 / Pow2(32 - p)
            && HostV4(a, index) % Pow2(32 - p) == index
  {
    PoolShape(a4, p, a6, p6, u);
    PrefixRoom(a4, p);
    var a := NewAllocator(a4, p, a6, p6, u).value;
    NoWrap(a, index);
    HostInBlock(a4, Pow2(32 - p), index);
  }

  lemma NoWrap(a: Allocator, index: nat)
    requires a.base4 + index < TWO_32
    ensures HostV4(a, index) == a.base4 + index
  {
  }

  lemma HostInBlock(a: nat, m: nat, index: nat)
    requires index < m
    ensures (a - a % m + index) / m == a / m && (a - a % m + index) % m == index
  {
    assert a == a / m * m + a % m;
    ModUnique(a / m * m + index, m, a / m, index);
  }

  lemma RoomAbove(a: nat, m: nat, n: nat)
    requires m > 0 && a < n * m
    ensures a - a % m + m <= n * m
  {
    var q := a / m;
    assert a == q * m + a % m;
    MulCancel(q, n, m);
    assert (q + 1) * m <= n * m;
  }

  lemma MulCancel(q: nat, n: nat, m: nat)
    requires q * m < n * m
    ensures q < n
  {
    assert q >= n ==> q * m >= n * m;
  }

  lemma PrefixRoom(a4: nat, p: nat)
    requires a4 < TWO_32 && 1 <= p <= 31
    ensures a4 - a4 % Pow2(32 - p) + Pow2(32 - p) <= TWO_32
  {
    Pow2Of32();
    Pow2Product(p, 32 - p);
    RoomAbove(a4, Pow2(32 - p), Pow2(p));
  }

  lemma {:induction false} Pow2Product(i: nat, j: nat)
    ensures Pow2(i) * Pow2(j) == Pow2(i + j)
  {
    if i > 0 {
      Pow2Product(i - 1, j);
      assert 2 * Pow2(i - 1) * Pow2(j) == 2 * (Pow2(i - 1) * Pow2(j));
    }
  }

  /** An allocator as any valid prefix makes it, whatever the undefined shift yields. */
  predicate Sound(a: Allocator) {
    |a.base6| == 16 && a.base4 + a.hosts < TWO_32
  }

  lemma NewAllocatorSound(a4: nat, p: int, a6: seq<byte>, p6: int, u: nat)
    requires a4 < TWO_32 && |a6| == 16 && u < TWO_32
    requires NewAllocator(a4, p, a6, p6, u).Some?
    ensures Sound(NewAllocator(a4, p, a6, p6, u).value)
  {
    if p == 0 {
      AndZero(32, a4);
    } else if p == 32 {
      Pow2Of32();
      assert Shl32(0xFFFF_FFFF, 0) == TWO_32 - Pow2(0);
      AndHighMask(32, 0, a4);
    } else {
      PoolShape(a4, p, a6, p6, u);
      PrefixRoom(a4, p);
    }
  }

  lemma {:induction false} AndZero(n: nat, a: nat)
    ensures And(n, a, 0) == 0
  {
    if n > 0 {
      AndZero(n - 1, a / 2);
    }
  }

  lemma Be32RoundTrip(v: nat)
    requires v < TWO_32
    ensures FromBe32(Be32(v)[0], Be32(v)[1], Be32(v)[2], Be32(v)[3]) == v
  {
    var a := v / 256;
    var b := a / 256;
    var c := b / 256;
    assert v / 0x1_0000 == b && v / 0x100_0000 == c;
  }

  lemma Be32Injective(i: nat, j: nat)
    requires i < TWO_32 && j < TWO_32 && Be32(i) == Be32(j)
    ensures i == j
  {
    Be32RoundTrip(i);
    Be32RoundTrip(j);
  }

  /** No two hosts of a pool share an address of either family. */
  lemma AddressInjective(a: Allocator, t: AddressText, i: nat, j: nat)
    requires Sound(a) && Faithful(t) && InRange(a, i) && InRange(a, j)
    requires || Address(a, t, i).value.0 == Address(a, t, j).value.0
             || Address(a, t, i).value.1 == Address(a, t, j).value.1
    ensures i == j
  {
    if Address(a, t, i).value.0 == Address(a, t, j).value.0 {
      assert t.pton4(Address(a, t, i).value.0) == Some(Be32(HostV4(a, i)));
      assert t.pton4(Address(a, t, j).value.0) == Some(Be32(HostV4(a, j)));
      NoWrap(a, i);
      NoWrap(a, j);
      Be32Injective(a.base4 + i, a.base4 + j);
    } else {
      assert t.pton6(Address(a, t, i).value.1) == Some(HostV6(a, i));
      assert t.pton6(Address(a, t, j).value.1) == Some(HostV6(a, j));
      assert HostV6(a, i)[12..] == Be32(i) && HostV6(a, j)[12..] == Be32(j);
      Be32Injective(i, j);
    }
  }

  // ---------------------------------------------------------------- the IPv6 prefix

  /** Bit i of an address, counting from the most significant. */
  function Bit(address: seq<byte>, i: nat): nat
    requires i < 8 * |address|
  {
    address[i / 8] / Pow2(7 - i % 8) % 2
  }

  ghost predicate KeepsLeadingBits(base: seq<byte>, host: seq<byte>, p: nat)
    requires |base| == |host| == 16 && p <= 128
  {
    forall i :: 0 <= i < p ==> Bit(host, i) == Bit(base, i)
  }

  /** The index goes into the last four octets, so a prefix length is respected by every base and
      index if and only if it is at most 96. */
  lemma Ipv6PrefixKeptIffAtMost96(p: nat)
    requires p <= 128
    ensures (forall a: Allocator, index: nat :: |a.base6| == 16 && index < TWO_32 ==>
               KeepsLeadingBits(a.base6, HostV6(a, index), p))
            <==> p <= 96
  {
    if p <= 96 {
      forall a: Allocator, index: nat | |a.base6| == 16 && index < TWO_32
        ensures KeepsLeadingBits(a.base6, HostV6(a, index), p)
      {
        forall i | 0 <= i < p
          ensures Bit(HostV6(a, index), i) == Bit(a.base6, i)
        {
          assert i / 8 < 12;
        }
      }
    } else {
      var a := Allocator(0, 0, seq(16, _ => 255));
      assert Pow2(7) == 128;
      assert Bit(a.base6, 96) == 1 && Bit(HostV6(a, 1), 96) == 0;
      assert !KeepsLeadingBits(a.base6, HostV6(a, 1), p);
    }
  }
}
