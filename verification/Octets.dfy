/**
 Addresses by their bytes: the byte form determines the address, an IPv4-mapped address is
 the 12 bytes ::ffff followed by the 4 bytes of the IPv4 address, and a network holds an
 address when the first bits of their byte forms agree.
 */
module Octets {
  import opened Bits
  import opened Netip
  import opened Wrappers

  // ---------------------------------------------------------------------------
  // Byte forms

  lemma {:induction false} BytesOfBigEndian(b: seq<Byte>, j: nat)
    requires j < |b|
    ensures ByteOf(BigEndian(b), |b|, j) == b[j]
  {
    var n := |b| - 1;
    var x := BigEndian(b);
    assert x == BigEndian(b[..n]) * 256 + b[n];
    DivUnique(x, 256, BigEndian(b[..n]), b[n]);
    if j == n {
      LastByte(x, n + 1);
    } else {
      ByteOfFront(x, n + 1, j);
      BytesOfBigEndian(b[..n], j);
    }
  }

  /** 4 or 16 bytes are the byte form of the address read from them. */
  lemma FromBytesRoundTrip(b: seq<Byte>)
    requires |b| == 4 || |b| == 16
    ensures AddrFromBytes(b).Some? && AddrFromBytes(b).value != Zero && AddrBytes(AddrFromBytes(b).value) == b
  {
    var a := AddrFromBytes(b).value;
    forall j | 0 <= j < |b| ensures AddrBytes(a)[j] == b[j] {
      BytesOfBigEndian(b, j);
    }
  }

  lemma SameBytesSameAddr(a: Addr, b: Addr)
    requires a != Zero && b != Zero && AddrBytes(a) == AddrBytes(b)
    ensures a == b
  {
    BytesRoundTrip(a);
    BytesRoundTrip(b);
  }

  lemma {:induction false} BigEndianConcat(a: seq<Byte>, b: seq<Byte>)
    ensures BigEndian(a + b) == BigEndian(a) * Pow2(8 * |b|) + BigEndian(b)
    decreases |b|
  {
    if b == [] {
      assert a + b == a;
    } else {
      var n := |b| - 1;
      assert (a + b)[..|a + b| - 1] == a + b[..n];
      BigEndianConcat(a, b[..n]);
      Pow2Add(8 * n, 8);
      assert Pow2(8) == 256;
      Shift(BigEndian(a), Pow2(8 * n), BigEndian(b[..n]), b[n]);
    }
  }

  lemma Shift(a: nat, p: nat, b: nat, last: nat)
    ensures (a * p + b) * 256 + last == a * (p * 256) + (b * 256 + last)
  {}

  // ---------------------------------------------------------------------------
  // Mapped addresses

  /** Ten zero bytes and two of all ones (section 2.5.5.2 of RFC 4291). */
  predicate MappedForm(b: seq<Byte>) {
    |b| == 16 && (forall j | 0 <= j < 10 :: b[j] == 0) && b[10] == 255 && b[11] == 255
  }

  const MAPPED_HEAD: seq<Byte> := [0, 0, 0, 0, 0, 0, 0, 0, 0, 0, 255, 255]

  lemma {:induction false} LeadingZeros(n: nat, b: seq<Byte>)
    ensures BigEndian(seq(n, _ => 0) + b) == BigEndian(b)
  {
    BigEndianConcat(seq(n, _ => 0), b);
    ZerosAreZero(n);
  }

  lemma {:induction false} ZerosAreZero(n: nat)
    ensures BigEndian(seq(n, _ => 0)) == 0
  {
    if n > 0 {
      var zeros: seq<Byte> := seq(n, _ => 0);
      assert zeros[..n - 1] == seq(n - 1, _ => 0);
      ZerosAreZero(n - 1);
    }
  }

  lemma HeadValue()
    ensures BigEndian(MAPPED_HEAD) == 0xffff
  {
    var tail: seq<Byte> := [255, 255];
    assert MAPPED_HEAD == seq(10, _ => 0) + tail;
    LeadingZeros(10, tail);
    assert tail[..1] == [255] && [255][..0] == [];
    assert BigEndian([255]) == BigEndian([]) * 256 + 255;
    assert BigEndian(tail) == BigEndian([255]) * 256 + 255;
  }

  lemma SameNumberSameBytes(a: seq<Byte>, b: seq<Byte>)
    requires |a| == |b| && BigEndian(a) == BigEndian(b)
    ensures a == b
  {
    forall j | 0 <= j < |a| ensures a[j] == b[j] {
      BytesOfBigEndian(a, j);
      BytesOfBigEndian(b, j);
    }
  }

  /** What `Unmap` does, on bytes: a mapped address becomes the IPv4 address of its last four, any other stays. */
  lemma UnmapBytes(a: Addr)
    ensures Is4In6(a) <==> MappedForm(AddrBytes(a))
    ensures Is4In6(a) ==> Unmap(a).IPv4? && AddrBytes(Unmap(a)) == AddrBytes(a)[12..]
    ensures !Is4In6(a) ==> Unmap(a) == a
  {
    if a.IPv6? {
      HeadAndTail(a);
      HeadDecides(AddrBytes(a));
      if Is4In6(a) {
        TailIsAddress(AddrBytes(a)[12..]);
      }
    }
  }

  lemma HeadDecides(b: seq<Byte>)
    requires |b| == 16
    ensures BigEndian(b[..12]) == 0xffff <==> MappedForm(b)
  {
    HeadValue();
    if BigEndian(b[..12]) == 0xffff {
      SameNumberSameBytes(b[..12], MAPPED_HEAD);
    }
    if MappedForm(b) {
      assert b[..12] == MAPPED_HEAD;
    }
  }

  lemma TailIsAddress(tail: seq<Byte>)
    requires |tail| == 4
    ensures BigEndian(tail) < 0x1_0000_0000 && AddrBytes(IPv4(BigEndian(tail))) == tail
  {
    WidthsAreWords();
    FromBytesRoundTrip(tail);
  }

  /** Quotient and remainder by 2^32 are the numbers of the first twelve and the last four bytes. */
  lemma HeadAndTail(a: Addr)
    requires a.IPv6?
    ensures a.wide / 0x1_0000_0000 == BigEndian(AddrBytes(a)[..12])
    ensures a.wide % 0x1_0000_0000 == BigEndian(AddrBytes(a)[12..])
  {
    var b := AddrBytes(a);
    BytesRoundTrip(a);
    assert b == b[..12] + b[12..];
    BigEndianConcat(b[..12], b[12..]);
    TailIsAddress(b[12..]);
    Split32(a.wide, BigEndian(b[..12]), BigEndian(b[12..]));
  }

  lemma Split32(x: nat, head: nat, tail: nat)
    requires x == head * Pow2(32) + tail && tail < 0x1_0000_0000
    ensures x / 0x1_0000_0000 == head && x % 0x1_0000_0000 == tail
  {
    WidthsAreWords();
    DivUnique(x, 0x1_0000_0000, head, tail);
  }

  // ---------------------------------------------------------------------------
  // Networks

  /** The first `n` bits agree. */
  predicate SameBits(a: seq<Byte>, b: seq<Byte>, n: nat)
    requires n <= 8 * |a| && n <= 8 * |b|
  {
    forall i | 0 <= i < n :: BitAt(a, i) == BitAt(b, i)
  }

  /**
   The network of the first `bits` bits of `net` holds the address.  A 4-byte network holds
   the 4-byte addresses and, by their last four bytes, the mapped ones; a 16-byte network
   holds 16-byte addresses that are not mapped.
   */
  predicate NetworkHolds(net: seq<Byte>, bits: int, ip: Addr) {
    ip != Zero && 0 <= bits <= 8 * |net| &&
    var c := AddrBytes(ip);
    if |net| == 4 && |c| == 4 then SameBits(net, c, bits)
    else if |net| == 4 then MappedForm(c) && SameBits(net, c[12..], bits)
    else |net| == 16 && |c| == 16 && !MappedForm(c) && SameBits(net, c, bits)
  }
}
