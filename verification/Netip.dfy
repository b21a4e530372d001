/**
 Addresses and prefixes as the standard library's `net/netip` presents them to the
 blocklist: the invalid zero address, 4-byte and 16-byte addresses as 32- and 128-bit
 integers, and CIDR prefixes.  IPv6 zones are not part of this model.
 */
module Netip {
  import opened Bits
  import opened Wrappers

  type Word32 = x: nat | x < 0x1_0000_0000
  type Word128 = x: nat | x < 0x1_0000_0000_0000_0000_0000_0000_0000_0000

  datatype Addr = Zero | IPv4(word: Word32) | IPv6(wide: Word128)

  datatype Family = Four | Six

  function Width(f: Family): nat {
    if f == Four then 32 else 128
  }

  /** The family of an address after `Unmap`; the zero address counts as 16-byte, as `Is4` is false for it. */
  function FamilyOf(a: Addr): Family {
    if a.IPv4? then Four else Six
  }

  function Value(a: Addr): (x: nat)
    ensures x < Pow2(Width(FamilyOf(a)))
  {
    WidthsAreWords();
    match a
    case Zero => 0
    case IPv4(word) => word
    case IPv6(wide) => wide
  }

  lemma WidthsAreWords()
    ensures Pow2(32) == 0x1_0000_0000
    ensures Pow2(128) == 0x1_0000_0000_0000_0000_0000_0000_0000_0000
  {
    WidthsFrom(0);
  }

  lemma WidthsFrom(n: nat)
    requires n == 0
    ensures Pow2(n + 32) == 0x1_0000_0000
    ensures Pow2(n + 128) == 0x1_0000_0000_0000_0000_0000_0000_0000_0000
  {
    Pow2Plus32(n);
    Pow2Plus32(n + 32);
    Pow2Plus32(n + 64);
    Pow2Plus32(n + 96);
  }

  lemma Pow2Plus32(n: nat)
    ensures Pow2(n + 32) == 0x1_0000_0000 * Pow2(n)
  {
    Pow2Plus16(n);
    Pow2Plus16(n + 16);
  }

  lemma Pow2Plus16(n: nat)
    ensures Pow2(n + 16) == 0x1_0000 * Pow2(n)
  {
    Pow2Plus4(n);
    Pow2Plus4(n + 4);
    Pow2Plus4(n + 8);
    Pow2Plus4(n + 12);
  }

  lemma Pow2Plus4(n: nat)
    ensures Pow2(n + 4) == 16 * Pow2(n)
  {
    assert Pow2(n + 4) == 2 * Pow2(n + 3);
    assert Pow2(n + 3) == 2 * Pow2(n + 2);
    assert Pow2(n + 2) == 2 * Pow2(n + 1);
  }

  /** An IPv4-mapped address, ::ffff:a.b.c.d (section 2.5.5.2 of RFC 4291). */
  predicate Is4In6(a: Addr) {
    a.IPv6? && a.wide / 0x1_0000_0000 == 0xffff
  }

  function Unmap(a: Addr): Addr {
    if Is4In6(a) then IPv4(a.wide % 0x1_0000_0000) else a
  }

  /** `bits` is -1 in a prefix the library refused to form. */
  datatype Prefix = Prefix(addr: Addr, bits: int) {
    predicate IsValid() {
      addr != Zero && 0 <= bits <= Width(FamilyOf(addr))
    }
  }

  /** `PrefixFrom`: out-of-range lengths give an invalid prefix, not an error. */
  function PrefixFrom(a: Addr, bits: int): Prefix {
    if a != Zero && 0 <= bits <= Width(FamilyOf(a)) then Prefix(a, bits) else Prefix(a, -1)
  }

  function WithValue(f: Family, x: nat): (a: Addr)
    requires x < Pow2(Width(f))
    ensures FamilyOf(a) == f && Value(a) == x && a != Zero
  {
    WidthsAreWords();
    if f == Four then IPv4(x) else IPv6(x)
  }

  /** `Masked`: the host bits are cleared. */
  function Masked(p: Prefix): (m: Prefix)
    requires p.IsValid()
    ensures m.IsValid() && m.bits == p.bits && FamilyOf(m.addr) == FamilyOf(p.addr)
  {
    var f := FamilyOf(p.addr);
    ClearFacts(Value(p.addr), Width(f), p.bits);
    Prefix(WithValue(f, Clear(Value(p.addr), Width(f), p.bits)), p.bits)
  }

  // ---------------------------------------------------------------------------
  // The byte form and its bits

  /** Byte `j` of the `n`-byte big-endian form of `x`. */
  function ByteOf(x: nat, n: nat, j: nat): Byte
    requires j < n
  {
    (x / Pow2(8 * (n - 1 - j))) % 256
  }

  /** The big-endian byte form: 4 bytes for a 4-byte address, 16 otherwise. */
  function AddrBytes(a: Addr): (b: seq<Byte>)
    ensures |b| == Width(FamilyOf(a)) / 8
  {
    var n := Width(FamilyOf(a)) / 8;
    seq(n, j requires 0 <= j < n => ByteOf(Value(a), n, j))
  }

  /** The i-th bit of `b`, most significant first within each byte: an unsigned shift and a mask. */
  function BitAt(b: seq<Byte>, i: nat): (r: nat)
    requires i < 8 * |b|
    ensures r < 2
  {
    QuotientIsNat(b[i / 8], Pow2(7 - i % 8));
    b[i / 8] / Pow2(7 - i % 8) % 2
  }

  /** Reducing modulo 2^m first does not change a bit below bit m. */
  lemma BitOfRemainder(x: nat, m: nat, k: nat)
    requires k < m
    ensures (x % Pow2(m)) / Pow2(k) % 2 == x / Pow2(k) % 2
  {
    Pow2Add(k, m - k);
    assert Pow2(m - k) == 2 * Pow2(m - k - 1);
    QuotientOfRemainder(x, Pow2(k), Pow2(m - k - 1), Pow2(m));
  }

  lemma QuotientOfRemainder(x: nat, d: nat, h: nat, m: nat)
    requires d > 0 && h > 0 && m == d * (2 * h)
    ensures (x % m) / d % 2 == x / d % 2
  {
    var q, r := x / m, x % m;
    QuotientIsNat(x, m);
    QuotientIsNat(r, d);
    var hq := h * q;
    assert x == m * q + r;
    assert m * q == d * (2 * hq) by { Regroup(d, h, q); }
    assert r == d * (r / d) + r % d;
    assert x == d * (2 * hq + r / d) + r % d by { Distribute(d, 2 * hq, r / d); }
    DivUnique(x, d, 2 * hq + r / d, r % d);
  }

  lemma Regroup(d: nat, h: nat, q: nat)
    ensures d * (2 * h) * q == d * (2 * (h * q))
  {}

  lemma Distribute(d: nat, a: nat, b: nat)
    ensures d * (a + b) == d * a + d * b
  {}

  /** Reading bit i of the byte form is reading bit i of the address. */
  lemma BitAtIsBit(a: Addr, i: nat)
    requires i < Width(FamilyOf(a))
    ensures BitAt(AddrBytes(a), i) == Bit(Value(a), Width(FamilyOf(a)), i)
  {
    var w := Width(FamilyOf(a));
    var n := w / 8;
    var j, k := i / 8, 7 - i % 8;
    BitOfByteOf(Value(a), n, j, k);
    assert 8 * (n - 1 - j) + k == w - 1 - i;
  }

  lemma BitOfByteOf(x: nat, n: nat, j: nat, k: nat)
    requires j < n && k < 8
    ensures ByteOf(x, n, j) / Pow2(k) % 2 == x / Pow2(8 * (n - 1 - j) + k) % 2
  {
    QuotientIsNat(x, Pow2(8 * (n - 1 - j)));
    assert Pow2(8) == 256;
    BitOfRemainder(x / Pow2(8 * (n - 1 - j)), 8, k);
    DivPow2(x, 8 * (n - 1 - j), k);
  }

  /** The address read back from a byte form; lengths other than 4 and 16 have none. */
  function AddrFromBytes(b: seq<Byte>): Option<Addr>
  {
    if |b| == 4 then
      WidthsAreWords(); Some(IPv4(BigEndian(b)))
    else if |b| == 16 then
      WidthsAreWords(); Some(IPv6(BigEndian(b)))
    else None
  }

  function BigEndian(b: seq<Byte>): (x: nat)
    ensures x < Pow2(8 * |b|)
  {
    if b == [] then 0
    else
      var n := |b| - 1;
      assert Pow2(8) == 256; Pow2Add(8 * n, 8);
      BigEndian(b[..n]) * 256 + b[n]
  }

  lemma {:induction false} BigEndianOfBytes(x: nat, n: nat, b: seq<Byte>)
    requires |b| == n && x < Pow2(8 * n)
    requires forall j | 0 <= j < n :: b[j] == ByteOf(x, n, j)
    ensures BigEndian(b) == x
  {
    if n == 0 {
    } else {
      var front := b[..n - 1];
      assert Pow2(8) == 256;
      Pow2Add(8 * (n - 1), 8);
      forall j | 0 <= j < n - 1
        ensures front[j] == ByteOf(x / 256, n - 1, j)
      {
        ByteOfFront(x, n, j);
      }
      BigEndianOfBytes(x / 256, n - 1, front);
      LastByte(x, n);
    }
  }

  lemma ByteOfFront(x: nat, n: nat, j: nat)
    requires j < n - 1
    ensures ByteOf(x / 256, n - 1, j) == ByteOf(x, n, j)
  {
    assert Pow2(8) == 256;
    DivPow2(x, 8, 8 * (n - 2 - j));
    assert 8 + 8 * (n - 2 - j) == 8 * (n - 1 - j);
  }

  lemma LastByte(x: nat, n: nat)
    requires n > 0
    ensures ByteOf(x, n, n - 1) == x % 256
  {}

  /** The byte form loses nothing. */
  lemma BytesRoundTrip(a: Addr)
    requires a != Zero
    ensures AddrFromBytes(AddrBytes(a)) == Some(a)
  {
    BigEndianOfBytes(Value(a), Width(FamilyOf(a)) / 8, AddrBytes(a));
  }
}
