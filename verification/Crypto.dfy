/** src/crypto.cpp: HMAC and HKDF over BLAKE2s, hex text, and the primitives they rest on.

    BLAKE2s, X25519 and ChaCha20-Poly1305 are fields of a `Suite`: every result below holds for
    every suite, and the handshake and record results for every suite that is `Lawful`. */
module Crypto {
  import opened Bytes

  /** `dh` is None where EVP_PKEY_derive reports an error; `open` is None where the tag is wrong. */
  datatype Suite = Suite(
    hash: seq<byte> -> Bytes32,
    pub: Bytes32 -> Bytes32,
    dh: (Bytes32, Bytes32) -> Option<Bytes32>,
    seal: (Bytes32, seq<byte>, seq<byte>, seq<byte>) -> seq<byte>,
    open: (Bytes32, seq<byte>, seq<byte>, seq<byte>) -> Option<seq<byte>>)

  /** The three laws of the primitives: Diffie-Hellman commutes (and fails on both sides or on
      neither), sealing adds a 16-byte tag, and opening undoes sealing. */
  ghost predicate Lawful(s: Suite) {
    && (forall a: Bytes32, b: Bytes32 :: s.dh(a, s.pub(b)) == s.dh(b, s.pub(a)))
    && (forall k: Bytes32, n: seq<byte>, ad: seq<byte>, p: seq<byte> {:trigger s.seal(k, n, ad, p)} ::
          |s.seal(k, n, ad, p)| == |p| + 16 && s.open(k, n, ad, s.seal(k, n, ad, p)) == Some(p))
  }

  /** The laws are not contradictory: a suite with a null cipher obeys them. */
  lemma LawfulSuiteExists() returns (s: Suite)
    ensures Lawful(s)
  {
    var key: Bytes32 := Zeros(32);
    s := Suite(
      (m: seq<byte>) => key,
      (p: Bytes32) => p,
      (a: Bytes32, b: Bytes32) => Some(key),
      (k: Bytes32, n: seq<byte>, ad: seq<byte>, p: seq<byte>) => p + Zeros(16),
      (k: Bytes32, n: seq<byte>, ad: seq<byte>, c: seq<byte>) =>
        if |c| < 16 then None else Some(c[..|c| - 16]));
    forall k: Bytes32, n: seq<byte>, ad: seq<byte>, p: seq<byte>
      ensures s.open(k, n, ad, s.seal(k, n, ad, p)) == Some(p)
    {
      assert (p + Zeros(16))[..|p|] == p;
    }
  }

  // ---------------------------------------------------------------- HMAC

  const BLOCK: nat := 64

  function XorByte(a: byte, b: byte): byte {
    assert Pow2(8) == 256;
    Xor(8, a, b)
  }

  /** The key of RFC 2104 section 2 brought to one block: hashed if longer, then zero filled. */
  function PaddedKey(s: Suite, key: seq<byte>): (k: seq<byte>)
    ensures |k| == BLOCK
  {
    if |key| > BLOCK then s.hash(key) + Zeros(32) else key + Zeros(BLOCK - |key|)
  }

  function XorPad(k: seq<byte>, pad: byte): (r: seq<byte>)
    ensures |r| == |k|
  {
    seq(|k|, i requires 0 <= i < |k| => XorByte(k[i], pad))
  }

  /** RFC 2104 section 2: H((K xor opad) || H((K xor ipad) || text)). */
  function Hmac(s: Suite, key: seq<byte>, data: seq<byte>): Bytes32 {
    var k := PaddedKey(s, key);
    s.hash(XorPad(k, 0x5c) + s.hash(XorPad(k, 0x36) + data))
  }

  /** Octet by octet and bit by bit: the outer key is the block exclusive or 0x5c, the inner one
      exclusive or 0x36, and the outer hash is over the inner. */
  lemma HmacWrittenOut(s: Suite, key: seq<byte>, data: seq<byte>) returns (inner: seq<byte>, outer: seq<byte>)
    ensures Hmac(s, key, data) == s.hash(outer + s.hash(inner + data)) && |inner| == |outer| == 64
    ensures var block := if |key| > 64 then s.hash(key) + Zeros(32) else key + Zeros(64 - |key|);
            forall i, b | 0 <= i < 64 && 0 <= b < 8 ::
              && Bit(inner[i], b) == (if Bit(block[i], b) == Bit(0x36, b) then 0 else 1)
              && Bit(outer[i], b) == (if Bit(block[i], b) == Bit(0x5c, b) then 0 else 1)
  {
    var block := if |key| > 64 then s.hash(key) + Zeros(32) else key + Zeros(64 - |key|);
    inner, outer := XorPad(block, 0x36), XorPad(block, 0x5c);
    forall i, b | 0 <= i < 64 && 0 <= b < 8
      ensures Bit(inner[i], b) == if Bit(block[i], b) == Bit(0x36, b) then 0 else 1
      ensures Bit(outer[i], b) == if Bit(block[i], b) == Bit(0x5c, b) then 0 else 1
    {
      XorBits(8, block[i], 0x36, b);
      XorBits(8, block[i], 0x5c, b);
    }
  }

  method HmacBlake2s(s: Suite, key: seq<byte>, data: seq<byte>) returns (mac: Bytes32)
    ensures mac == Hmac(s, key, data)
  {
    var kpad := if |key| > BLOCK then s.hash(key) + Zeros(32) else key + Zeros(BLOCK - |key|);
    var ipad, opad := Pads(kpad);
    var inner := s.hash(ipad + data);
    mac := s.hash(opad + inner);
  }

  method Pads(kpad: seq<byte>) returns (ipad: seq<byte>, opad: seq<byte>)
    ensures ipad == XorPad(kpad, 0x36) && opad == XorPad(kpad, 0x5c)
  {
    ipad, opad := [], [];
    for i := 0 to |kpad|
      invariant |ipad| == |opad| == i
      invariant forall j :: 0 <= j < i ==> ipad[j] == XorByte(kpad[j], 0x36) && opad[j] == XorByte(kpad[j], 0x5c)
    {
      ipad := ipad + [XorByte(kpad[i], 0x36)];
      opad := opad + [XorByte(kpad[i], 0x5c)];
    }
  }

  // ---------------------------------------------------------------- HKDF

  /** T(i) of RFC 5869 section 2.3 with empty info. The octet counter is a uint8_t, so it is the
      RFC's octet for i up to 255, which is as far as the RFC goes. */
  function T(s: Suite, prk: Bytes32, i: nat): (t: seq<byte>)
    ensures |t| == if i == 0 then 0 else 32
  {
    if i == 0 then [] else Hmac(s, prk, T(s, prk, i - 1) + [i % 256])
  }

  /** T(1) || ... || T(n). */
  function TStream(s: Suite, prk: Bytes32, n: nat): (t: seq<byte>)
    ensures |t| == 32 * n
  {
    if n == 0 then [] else TStream(s, prk, n - 1) + T(s, prk, n)
  }

  /** RFC 5869: extract with the salt, then the first `length` octets of the expansion. */
  function Hkdf(s: Suite, ikm: seq<byte>, salt: seq<byte>, length: nat): (okm: seq<byte>)
    ensures |okm| == length
  {
    TStream(s, Hmac(s, salt, ikm), (length + 31) / 32)[..length]
  }

  lemma {:induction false} TStreamPrefix(s: Suite, prk: Bytes32, m: nat, n: nat)
    requires m <= n
    ensures TStream(s, prk, m) <= TStream(s, prk, n)
    decreases n
  {
    if m < n {
      TStreamPrefix(s, prk, m, n - 1);
    }
  }

  /** Block i + 1 sits at offset 32 * i of the stream. */
  lemma BlockAt(s: Suite, prk: Bytes32, i: nat, n: nat)
    requires i < n
    ensures TStream(s, prk, n)[32 * i..32 * i + 32] == T(s, prk, i + 1)
  {
    TStreamPrefix(s, prk, i + 1, n);
    assert TStream(s, prk, i + 1)[32 * i..] == T(s, prk, i + 1);
  }

  /** RFC 5869 section 2.3, block by block: each is the HMAC, under the extracted key, of the block
      before it and the octet of its number. */
  lemma HkdfWrittenOut(s: Suite, ikm: seq<byte>, salt: seq<byte>, length: nat, i: nat)
    requires 32 * i + 32 <= length && i < 255
    ensures var okm := Hkdf(s, ikm, salt, length);
            okm[32 * i..32 * i + 32]
            == Hmac(s, Hmac(s, salt, ikm), (if i == 0 then [] else okm[32 * i - 32..32 * i]) + [i + 1])
  {
    BlockOfOkm(s, ikm, salt, length, i);
    if i > 0 {
      BlockOfOkm(s, ikm, salt, length, i - 1);
    }
  }

  lemma BlockOfOkm(s: Suite, ikm: seq<byte>, salt: seq<byte>, length: nat, i: nat)
    requires 32 * i + 32 <= length
    ensures Hkdf(s, ikm, salt, length)[32 * i..32 * i + 32] == T(s, Hmac(s, salt, ikm), i + 1)
  {
    var prk, blocks := Hmac(s, salt, ikm), (length + 31) / 32;
    BlockAt(s, prk, i, blocks);
    SliceOfPrefix(TStream(s, prk, blocks), length, 32 * i, 32 * i + 32);
  }

  lemma SliceOfPrefix(b: seq<byte>, length: nat, lo: nat, hi: nat)
    requires lo <= hi <= length <= |b|
    ensures b[..length][lo..hi] == b[lo..hi]
  {
  }

  /** ++ on a uint8_t. */
  method Increment(counter: byte, ghost i: nat) returns (next: byte)
    requires counter == i % 256
    ensures next == (i + 1) % 256
  {
    next := if counter == 255 then 0 else counter + 1;
  }

  method NextBlock(s: Suite, prk: Bytes32, prev: seq<byte>, counter: byte, ghost i: nat) returns (next: seq<byte>)
    requires prev == T(s, prk, i) && counter == (i + 1) % 256
    ensures next == T(s, prk, i + 1)
  {
    next := HmacBlake2s(s, prk, prev + [counter]);
  }

  method HkdfBlake2s(s: Suite, ikm: seq<byte>, salt: seq<byte>, out: array<byte>)
    modifies out
    ensures out[..] == Hkdf(s, ikm, salt, out.Length)
  {
    var prk := HmacBlake2s(s, salt, ikm);
    ghost var okm := Hkdf(s, ikm, salt, out.Length);
    ghost var blocks: nat := 0;
    var prev: seq<byte> := [];
    var off: nat := 0;
    var counter: byte := 1;
    while off < out.Length
      invariant off == Min(32 * blocks, out.Length)
      invariant prev == T(s, prk, blocks)
      invariant counter == (blocks + 1) % 256
      invariant out[..off] == okm[..off]
    {
      prev := NextBlock(s, prk, prev, counter, blocks);
      var n := Min(32, out.Length - off);
      OkmBlock(s, ikm, salt, out.Length, blocks, n);
      CopyBlock(out, off, prev[..n], okm[..off]);
      off, blocks := off + n, blocks + 1;
      counter := Increment(counter, blocks);
    }
    assert out[..off] == out[..];
  }

  lemma OkmBlock(s: Suite, ikm: seq<byte>, salt: seq<byte>, length: nat, i: nat, n: nat)
    requires n <= 32 && n > 0 && 32 * i + n <= length
    ensures Hkdf(s, ikm, salt, length)[..32 * i + n]
            == Hkdf(s, ikm, salt, length)[..32 * i] + T(s, Hmac(s, salt, ikm), i + 1)[..n]
  {
    var prk, blocks := Hmac(s, salt, ikm), (length + 31) / 32;
    BlockAt(s, prk, i, blocks);
    var stream := TStream(s, prk, blocks);
    assert stream[..length][..32 * i + n] == stream[..32 * i] + stream[32 * i..32 * i + 32][..n];
  }

  /** memcpy to the end of the part already written. */
  method CopyBlock(out: array<byte>, off: nat, block: seq<byte>, ghost done: seq<byte>)
    requires off + |block| <= out.Length && out[..off] == done
    modifies out
    ensures out[..off + |block|] == done + block
  {
    forall j | 0 <= j < |block| {
      out[off + j] := block[j];
    }
    assert out[..off] == done;
    assert out[off..off + |block|] == block;
  }

  /** A shorter output is always a prefix of a longer one. */
  lemma HkdfPrefix(s: Suite, ikm: seq<byte>, salt: seq<byte>, m: nat, n: nat)
    requires m <= n
    ensures Hkdf(s, ikm, salt, m) <= Hkdf(s, ikm, salt, n)
  {
    TStreamPrefix(s, Hmac(s, salt, ikm), (m + 31) / 32, (n + 31) / 32);
  }

  // ---------------------------------------------------------------- hex

  const HEX_DIGITS := "0123456789abcdef"

  function HexText(bytes: seq<byte>): (t: string)
    ensures |t| == 2 * |bytes|
  {
    if bytes == [] then "" else
      HexText(bytes[..|bytes| - 1]) + [HEX_DIGITS[bytes[|bytes| - 1] / 16], HEX_DIGITS[bytes[|bytes| - 1] % 16]]
  }

  /** The value of a hex digit in either case, or None. */
  function Nibble(c: char): (r: Option<nat>)
    ensures r.Some? ==> r.value < 16
  {
    if '0' <= c <= '9' then Some(c as int - '0' as int)
    else if 'a' <= c <= 'f' then Some(c as int - 'a' as int + 10)
    else if 'A' <= c <= 'F' then Some(c as int - 'A' as int + 10)
    else None
  }

  /** The sixteen digits, in either case, and nothing else. */
  lemma NibbleExactly(c: char, n: nat)
    requires n < 16
    ensures Nibble(c) == Some(n) <==> c == "0123456789abcdef"[n] || c == "0123456789ABCDEF"[n]
  {
    assert "0123456789abcdef"[n] == if n < 10 then ('0' as int + n) as char else ('a' as int + n - 10) as char;
    assert "0123456789ABCDEF"[n] == if n < 10 then ('0' as int + n) as char else ('A' as int + n - 10) as char;
  }

  predicate IsHex(t: string) {
    forall i :: 0 <= i < |t| ==> Nibble(t[i]).Some?
  }

  method HexEncode(bytes: seq<byte>) returns (t: string)
    ensures t == HexText(bytes)
  {
    t := "";
    for i := 0 to |bytes|
      invariant t == HexText(bytes[..i])
    {
      assert bytes[..i + 1][..i] == bytes[..i];
      t := t + [HEX_DIGITS[bytes[i] / 16], HEX_DIGITS[bytes[i] % 16]];
    }
    assert bytes[..|bytes|] == bytes;
  }

  /** The octet that two hex digits stand for. */
  function HexOctet(t: string, i: nat): byte
    requires 2 * i + 1 < |t| && IsHex(t)
  {
    Nibble(t[2 * i]).value * 16 + Nibble(t[2 * i + 1]).value
  }

  function HexBytes(t: string, size: nat): (r: Option<seq<byte>>)
    ensures r.Some? <==> |t| == 2 * size && IsHex(t)
  {
    if |t| == 2 * size && IsHex(t) then Some(seq(size, i requires 0 <= i < size => HexOctet(t, i))) else None
  }

  method HexDecode(t: string, size: nat) returns (r: Option<seq<byte>>)
    ensures r == HexBytes(t, size)
  {
    if |t| != size * 2 {
      return None;
    }
    var out: seq<byte> := [];
    for i := 0 to size
      invariant |out| == i
      invariant forall j :: 0 <= j < 2 * i ==> Nibble(t[j]).Some?
      invariant forall j :: 0 <= j < i ==> out[j] == Nibble(t[2 * j]).value * 16 + Nibble(t[2 * j + 1]).value
    {
      var hi, lo := Nibble(t[i * 2]), Nibble(t[i * 2 + 1]);
      if hi.None? || lo.None? {
        return None;
      }
      out := out + [hi.value * 16 + lo.value];
    }
    assert IsHex(t);
    assert out == HexBytes(t, size).value;
    r := Some(out);
  }

  /** Where the two digits of an octet stand. */
  lemma {:induction false} HexDigitsAt(bytes: seq<byte>, i: nat)
    requires i < |bytes|
    ensures HexText(bytes)[2 * i] == HEX_DIGITS[bytes[i] / 16]
    ensures HexText(bytes)[2 * i + 1] == HEX_DIGITS[bytes[i] % 16]
    decreases |bytes|
  {
    var init := bytes[..|bytes| - 1];
    if i < |init| {
      HexDigitsAt(init, i);
      assert HexText(bytes)[..2 * |init|] == HexText(init);
    }
  }

  lemma {:induction false} HexRoundTrip(bytes: seq<byte>)
    ensures HexBytes(HexText(bytes), |bytes|) == Some(bytes)
  {
    var t := HexText(bytes);
    forall i | 0 <= i < |bytes|
      ensures Nibble(t[2 * i]) == Some(bytes[i] / 16) && Nibble(t[2 * i + 1]) == Some(bytes[i] % 16)
    {
      HexDigitsAt(bytes, i);
      DigitNibble(bytes[i] / 16);
      DigitNibble(bytes[i] % 16);
    }
    assert IsHex(t) by {
      forall j | 0 <= j < |t|
        ensures Nibble(t[j]).Some?
      {
        var i := j / 2;
        assert Nibble(t[2 * i]).Some? && Nibble(t[2 * i + 1]).Some?;
      }
    }
    assert HexBytes(t, |bytes|).value == bytes;
  }

  lemma DigitNibble(n: nat)
    requires n < 16
    ensures Nibble(HEX_DIGITS[n]) == Some(n)
  {
    assert HEX_DIGITS[n] == if n < 10 then ('0' as int + n) as char else ('a' as int + n - 10) as char;
  }
}
