/**
 What the blocklist means, without tries: the canonical prefix an insertion records,
 which addresses a prefix covers, and the bit path a prefix or an address spells.
 */
module Canonical {
  import opened Bits
  import opened Netip
  import opened Octets
  import opened Wrappers

  type Path = seq<nat>

  /** A place in the two radix trees. */
  datatype Slot = Slot(family: Family, path: Path)

  /** What inserting `p` records: nothing, or the masked and then unmapped prefix. */
  function CanonicalOf(p: Prefix): (c: Option<Prefix>)
    ensures c.Some? ==> IsCanonical(c.value)
  {
    if !p.IsValid() then None
    else
      var m := Masked(p);
      var addr := Unmap(m.addr);
      if m.bits > Width(FamilyOf(addr)) then None
      else
        CanonicalIsMasked(p);
        Some(Prefix(addr, m.bits))
  }

  /** A recorded prefix: valid, not IPv4-mapped, and without host bits. */
  ghost predicate IsCanonical(c: Prefix) {
    && c.IsValid()
    && !Is4In6(c.addr)
    && Value(c.addr) == Clear(Value(c.addr), Width(FamilyOf(c.addr)), c.bits)
  }

  /** The insertions of `ps`, as a set: order and repetition are gone. */
  function Recorded(ps: seq<Prefix>): set<Prefix> {
    set p | p in ps && CanonicalOf(p).Some? :: CanonicalOf(p).value
  }

  /** A recorded prefix covers an address when both agree on its first `bits` bits. */
  ghost predicate Covers(c: Prefix, ip: Addr) {
    && c.IsValid() && ip != Zero
    && FamilyOf(c.addr) == FamilyOf(Unmap(ip))
    && var w := Width(FamilyOf(c.addr));
       Top(Value(c.addr), w, c.bits) == Top(Value(Unmap(ip)), w, c.bits)
  }

  /** The blocking decision of a set of recorded prefixes. */
  ghost predicate Blocks(cs: set<Prefix>, ip: Addr) {
    exists c :: c in cs && Covers(c, ip)
  }

  // ---------------------------------------------------------------------------
  // Masking before unmapping

  /** The 32-bit quotient of a mapped address is 0xffff, so its top 96 bits are too. */
  lemma MappedTop(x: Word128)
    ensures Is4In6(IPv6(x)) <==> Top(x, 128, 96) == 0xffff
  {
    WidthsAreWords();
  }

  /** An IPv4-mapped prefix of 96 bits or more stays mapped when masked. */
  lemma LongMaskKeepsMapped(x: Word128, bits: nat)
    requires 96 <= bits <= 128
    ensures Top(Clear(x, 128, bits), 128, 96) == Top(x, 128, 96)
  {
    ClearFacts(x, 128, bits);
    DivPow2(x, 128 - bits, bits - 96);
    DivPow2(Clear(x, 128, bits), 128 - bits, bits - 96);
  }

  /** Masking to fewer than 96 bits clears bit 95, so the result is not mapped. */
  lemma ShortMaskIsNotMapped(x: Word128, bits: nat)
    requires bits < 96
    ensures Top(Clear(x, 128, bits), 128, 96) % 2 == 0
  {
    var h := 95 - bits;
    Pow2Add(32, h + 1);
    var t := Top(x, 128, bits);
    Reassociate(t, Pow2(32), Pow2(h + 1));
    DivUnique(Clear(x, 128, bits), Pow2(32), t * Pow2(h + 1), 0);
    Reassociate2(t, Pow2(h));
  }

  lemma Reassociate(t: nat, a: nat, b: nat)
    ensures t * (a * b) == a * (t * b)
  {}

  lemma Reassociate2(t: nat, a: nat)
    ensures t * (2 * a) == 2 * (t * a)
  {}

  /** The IPv4-mapped prefix that masking leaves mapped is never recorded. */
  lemma MappedPrefixIsDropped(p: Prefix)
    requires p.IsValid() && Is4In6(p.addr) && p.bits >= 96
    ensures CanonicalOf(p) == None
  {
    MappedTop(p.addr.wide);
    LongMaskKeepsMapped(p.addr.wide, p.bits);
    MappedTop(Masked(p).addr.wide);
  }

  /** Every other valid prefix is recorded in the family it was given in, with its masked address. */
  lemma OtherPrefixIsKept(p: Prefix)
    requires p.IsValid() && !(Is4In6(p.addr) && p.bits >= 96)
    ensures CanonicalOf(p) == Some(Masked(p))
    ensures FamilyOf(Masked(p).addr) == FamilyOf(p.addr)
  {
    if p.addr.IPv6? {
      MappedTop(p.addr.wide);
      MappedTop(Masked(p).addr.wide);
      if p.bits >= 96 {
        LongMaskKeepsMapped(p.addr.wide, p.bits);
      } else {
        ShortMaskIsNotMapped(p.addr.wide, p.bits);
      }
    }
  }

  lemma CanonicalIsMasked(p: Prefix)
    requires p.IsValid() && p.bits <= Width(FamilyOf(Unmap(Masked(p).addr)))
    ensures IsCanonical(Prefix(Unmap(Masked(p).addr), p.bits))
  {
    var m := Masked(p);
    ClearFacts(Value(p.addr), Width(FamilyOf(p.addr)), p.bits);
    if Is4In6(m.addr) {
      if p.bits < 96 {
        ShortMaskIsNotMapped(p.addr.wide, p.bits);
        MappedTop(m.addr.wide);
      }
      assert false;
    }
  }

  /**
   The accepted addresses, read off the prefixes as they were given.  A prefix in
   4-byte form decides 4-byte and mapped clients; one in 16-byte form decides the
   16-byte clients that are not mapped, unless it is itself mapped with 96 bits or
   more, in which case it decides nothing.
   */
  ghost predicate DecidesDirectly(p: Prefix, ip: Addr) {
    && p.IsValid() && ip != Zero
    && !(Is4In6(p.addr) && p.bits >= 96)
    && FamilyOf(p.addr) == FamilyOf(Unmap(ip))
    && var w := Width(FamilyOf(p.addr));
       Top(Value(p.addr), w, p.bits) == Top(Value(Unmap(ip)), w, p.bits)
  }

  lemma RecordedCovers(p: Prefix, ip: Addr)
    ensures DecidesDirectly(p, ip) <==> CanonicalOf(p).Some? && Covers(CanonicalOf(p).value, ip)
  {
    if p.IsValid() {
      ClearFacts(Value(p.addr), Width(FamilyOf(p.addr)), p.bits);
      if Is4In6(p.addr) && p.bits >= 96 {
        MappedPrefixIsDropped(p);
      } else {
        OtherPrefixIsKept(p);
      }
    }
  }

  /** Agreement by division is agreement of the first bits of the byte forms. */
  lemma TopIsBits(a: Addr, b: Addr, n: nat)
    requires FamilyOf(a) == FamilyOf(b) && n <= Width(FamilyOf(a))
    ensures SameBits(AddrBytes(a), AddrBytes(b), n)
       <==> Top(Value(a), Width(FamilyOf(a)), n) == Top(Value(b), Width(FamilyOf(a)), n)
  {
    SamePath(a, b, n);
    if PathOf(a, n) == PathOf(b, n) {
      forall i | 0 <= i < n ensures BitAt(AddrBytes(a), i) == BitAt(AddrBytes(b), i) {
        assert PathOf(a, n)[i] == PathOf(b, n)[i];
      }
    }
  }

  /** A prefix decides exactly the addresses its network holds, by the bytes of both. */
  lemma DecidesByBytes(p: Prefix, ip: Addr)
    ensures DecidesDirectly(p, ip) <==> p.IsValid() && NetworkHolds(AddrBytes(p.addr), p.bits, ip)
  {
    if p.IsValid() && ip != Zero {
      var u := Unmap(ip);
      UnmapBytes(ip);
      if FamilyOf(p.addr) == FamilyOf(u) {
        TopIsBits(p.addr, u, p.bits);
      }
      if Is4In6(p.addr) && p.bits >= 96 && ip.IPv6? && SameBits(AddrBytes(p.addr), AddrBytes(ip), p.bits) {
        TopIsBits(p.addr, ip, 96);
        MappedTop(p.addr.wide);
        MappedTop(ip.wide);
      }
    }
  }

  /** A record covers exactly the addresses its network holds. */
  lemma CoversByBytes(c: Prefix, ip: Addr)
    requires IsCanonical(c)
    ensures Covers(c, ip) <==> NetworkHolds(AddrBytes(c.addr), c.bits, ip)
  {
    DecidesByBytes(c, ip);
  }

  lemma BlocksByBytes(cs: set<Prefix>, ip: Addr)
    requires forall c | c in cs :: IsCanonical(c)
    ensures Blocks(cs, ip) <==> exists c :: c in cs && NetworkHolds(AddrBytes(c.addr), c.bits, ip)
  {
    if c :| c in cs && Covers(c, ip) {
      CoversByBytes(c, ip);
    }
    if c :| c in cs && NetworkHolds(AddrBytes(c.addr), c.bits, ip) {
      CoversByBytes(c, ip);
    }
  }

  /** The set of accepted addresses of any sequence of insertions, on the bytes of prefixes and client. */
  lemma BlockedAddresses(ps: seq<Prefix>, ip: Addr)
    ensures Blocks(Recorded(ps), ip) <==> exists p :: p in ps && p.IsValid() && NetworkHolds(AddrBytes(p.addr), p.bits, ip)
  {
    BlockedDirectly(ps, ip);
    if p :| p in ps && DecidesDirectly(p, ip) {
      DecidesByBytes(p, ip);
    }
    if p :| p in ps && p.IsValid() && NetworkHolds(AddrBytes(p.addr), p.bits, ip) {
      DecidesByBytes(p, ip);
    }
  }

  lemma BlockedDirectly(ps: seq<Prefix>, ip: Addr)
    ensures Blocks(Recorded(ps), ip) <==> exists p :: p in ps && DecidesDirectly(p, ip)
  {
    if Blocks(Recorded(ps), ip) {
      var c :| c in Recorded(ps) && Covers(c, ip);
      var p :| p in ps && CanonicalOf(p) == Some(c);
      RecordedCovers(p, ip);
    }
    if p :| p in ps && DecidesDirectly(p, ip) {
      RecordedCovers(p, ip);
      assert CanonicalOf(p).value in Recorded(ps);
    }
  }

  /** Masking keeps the first bits and clears the others. */
  lemma MaskedBits(p: Prefix, i: nat)
    requires p.IsValid() && i < Width(FamilyOf(p.addr))
    ensures BitAt(AddrBytes(Masked(p).addr), i) == if i < p.bits then BitAt(AddrBytes(p.addr), i) else 0
  {
    var w, x := Width(FamilyOf(p.addr)), Value(p.addr);
    BitAtIsBit(p.addr, i);
    BitAtIsBit(Masked(p).addr, i);
    ClearFacts(x, w, p.bits);
    if i < p.bits {
      AgreeIffTop(Clear(x, w, p.bits), x, w, p.bits);
    } else {
      ClearedBit(Top(x, w, p.bits), w, p.bits, i);
    }
  }

  lemma ClearedBit(t: nat, w: nat, n: nat, i: nat)
    requires n <= i < w
    ensures Bit(t * Pow2(w - n), w, i) == 0
  {
    var d, h := Pow2(w - 1 - i), Pow2(i - n);
    Pow2Add(w - 1 - i, i + 1 - n);
    assert Pow2(i + 1 - n) == 2 * h;
    Regroup2(t, d, h);
    DivUnique(t * Pow2(w - n), d, 2 * (t * h), 0);
  }

  lemma Regroup2(t: nat, d: nat, h: nat)
    ensures t * (d * (2 * h)) == d * (2 * (t * h))
  {}

  /** The 4-byte tree holds exactly the valid prefixes given in 4-byte form, masked. */
  lemma FourByteTree(ps: seq<Prefix>, c: Prefix)
    ensures c in Recorded(ps) && c.addr.IPv4?
       <==> exists p :: p in ps && p.IsValid() && p.addr.IPv4? && c == Masked(p)
  {
    if c in Recorded(ps) && c.addr.IPv4? {
      var p :| p in ps && CanonicalOf(p) == Some(c);
      if Is4In6(p.addr) && p.bits >= 96 {
        MappedPrefixIsDropped(p);
      } else {
        OtherPrefixIsKept(p);
      }
    }
    if p :| p in ps && p.IsValid() && p.addr.IPv4? && c == Masked(p) {
      OtherPrefixIsKept(p);
    }
  }

  /** Order and repetition of the insertions change neither the records nor the verdicts. */
  lemma OrderAndRepetition(ps: seq<Prefix>, qs: seq<Prefix>)
    requires forall p :: p in ps <==> p in qs
    ensures Recorded(ps) == Recorded(qs)
  {}

  // ---------------------------------------------------------------------------
  // Bit paths

  /** The first `n` bits of the byte form of `a`. */
  function PathOf(a: Addr, n: nat): (path: Path)
    requires n <= Width(FamilyOf(a))
    ensures |path| == n
  {
    seq(n, i requires 0 <= i < n => BitAt(AddrBytes(a), i))
  }

  function SlotOf(c: Prefix): Slot
    requires c.IsValid()
  {
    Slot(FamilyOf(c.addr), PathOf(c.addr, c.bits))
  }

  /** `path` is the first bits of `bytes`. */
  ghost predicate Spells(path: Path, bytes: seq<Byte>) {
    |path| <= 8 * |bytes| && forall i | 0 <= i < |path| :: path[i] == BitAt(bytes, i)
  }

  lemma PathSpellsBytes(a: Addr, n: nat)
    requires n <= Width(FamilyOf(a))
    ensures Spells(PathOf(a, n), AddrBytes(a))
  {}

  lemma PathPrefix(a: Addr, n: nat, m: nat)
    requires m <= n <= Width(FamilyOf(a))
    ensures PathOf(a, n)[..m] == PathOf(a, m)
  {}

  /** Two addresses of one family spell the same path exactly when they agree by division. */
  lemma SamePath(a: Addr, b: Addr, n: nat)
    requires FamilyOf(a) == FamilyOf(b) && n <= Width(FamilyOf(a))
    ensures PathOf(a, n) == PathOf(b, n)
       <==> Top(Value(a), Width(FamilyOf(a)), n) == Top(Value(b), Width(FamilyOf(a)), n)
  {
    var w := Width(FamilyOf(a));
    AgreeIffTop(Value(a), Value(b), w, n);
    forall i | 0 <= i < n
      ensures PathOf(a, n)[i] == Bit(Value(a), w, i) && PathOf(b, n)[i] == Bit(Value(b), w, i)
    {
      BitAtIsBit(a, i);
      BitAtIsBit(b, i);
    }
    if PathOf(a, n) == PathOf(b, n) {
      forall i | 0 <= i < n ensures Bit(Value(a), w, i) == Bit(Value(b), w, i) {
        assert PathOf(a, n)[i] == PathOf(b, n)[i];
      }
    }
  }

  /** Distinct recorded prefixes have distinct places. */
  lemma SlotInjective(c: Prefix, d: Prefix)
    requires IsCanonical(c) && IsCanonical(d) && SlotOf(c) == SlotOf(d)
    ensures c == d
  {
    assert c.bits == |SlotOf(c).path| == d.bits;
    SamePath(c.addr, d.addr, c.bits);
    assert Value(c.addr) == Value(d.addr);
  }

  /** The places a set of recorded prefixes marks. */
  function Slots(cs: set<Prefix>): set<Slot> {
    set c | c in cs && c.IsValid() :: SlotOf(c)
  }

  /** A set of recorded prefixes covers `ip` exactly when it marks a place on the path of `ip`. */
  lemma CoverIsOnPath(cs: set<Prefix>, ip: Addr)
    requires ip != Zero
    ensures var u := Unmap(ip);
      Blocks(cs, ip) <==>
      exists n :: 0 <= n <= Width(FamilyOf(u)) && Slot(FamilyOf(u), PathOf(u, n)) in Slots(cs)
  {
    var u := Unmap(ip);
    if c :| c in cs && Covers(c, ip) {
      SamePath(c.addr, u, c.bits);
      assert SlotOf(c) == Slot(FamilyOf(u), PathOf(u, c.bits));
    }
    if n :| 0 <= n <= Width(FamilyOf(u)) && Slot(FamilyOf(u), PathOf(u, n)) in Slots(cs) {
      var c :| c in cs && c.IsValid() && SlotOf(c) == Slot(FamilyOf(u), PathOf(u, n));
      assert c.bits == |SlotOf(c).path| == n;
      SamePath(c.addr, u, n);
      assert Covers(c, ip);
    }
  }

  lemma RecordedOne(p: Prefix)
    ensures Recorded([p]) == if CanonicalOf(p).Some? then {CanonicalOf(p).value} else {}
  {}

  lemma RecordedConcat(ps: seq<Prefix>, qs: seq<Prefix>)
    ensures Recorded(ps + qs) == Recorded(ps) + Recorded(qs)
  {}
}
