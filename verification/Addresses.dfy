/** IP addresses in the 16-byte form that orders both families, CIDR prefixes
    and the IPv4 directed broadcast. */
module Addresses {

  /** 2^128: an address is the number its 16 bytes spell, most significant first. */
  const ADDRESS_SPACE: nat := 0x1_0000_0000_0000_0000_0000_0000_0000_0000

  const ALL_ONES: nat := ADDRESS_SPACE - 1

  type Address = a: nat | a < ADDRESS_SPACE

  /** IPv4 addresses occupy ::ffff:0:0/96. */
  const V4_BASE: nat := 0xFFFF_0000_0000

  predicate IsV4(a: Address) {
    V4_BASE <= a < V4_BASE + 0x1_0000_0000
  }

  type Octet = n: nat | n < 256

  /** The four bytes of an IPv4 address, as stored and as numbers. */
  type Bytes = b: seq<bv8> | |b| == 4 witness [0, 0, 0, 0]

  type Quad = o: seq<Octet> | |o| == 4 witness [0, 0, 0, 0]

  function Octets(b: Bytes): (o: Quad)
    ensures forall i :: 0 <= i < 4 ==> o[i] == b[i] as int
  {
    [b[0] as int, b[1] as int, b[2] as int, b[3] as int]
  }

  /** One more byte at the end of a number. */
  function Append(n: nat, d: Octet): nat {
    256 * n + d
  }

  function Word(b0: Octet, b1: Octet, b2: Octet, b3: Octet): (n: nat)
    ensures n < 0x1_0000_0000
  {
    Append(Append(Append(b0, b1), b2), b3)
  }

  function FromQuad(o: Quad): (a: Address)
    ensures IsV4(a)
  {
    V4_BASE + Word(o[0], o[1], o[2], o[3])
  }

  /** The host part of byte i: the complement of byte i of the network mask with
      the given number of leading one bits. */
  function HostByte(bits: nat, i: nat): bv8
    requires bits <= 32 && i < 4
  {
    if 8 * (i + 1) <= bits then 0
    else if bits <= 8 * i then 0xFF
    else (0xFF as bv8) >> (bits - 8 * i)
  }

  /** How many values byte i of an address inside the prefix can take. */
  function HostSize(bits: nat, i: nat): (n: nat)
    requires bits <= 32 && i < 4
    ensures n in {1, 2, 4, 8, 16, 32, 64, 128, 256}
  {
    if 8 * (i + 1) <= bits then 1
    else if bits <= 8 * i then 256
    else match 8 * (i + 1) - bits
      case 1 => 2 case 2 => 4 case 3 => 8 case 4 => 16 case 5 => 32 case 6 => 64 case _ => 128
  }

  // ------------------------------------------------------------------ broadcast

  /** The greatest byte that agrees with b above log2(size) host bits. */
  function Greatest(b: Octet, size: nat): (g: nat)
    requires size > 0
  {
    (b / size) * size + size - 1
  }

  function Least(b: Octet, size: nat): (g: nat)
    requires size > 0
  {
    (b / size) * size
  }

  lemma Or1(b: bv8) ensures (b | 0x01) as int == (b as int / 2) * 2 + 1 {}

  lemma Or2(b: bv8) ensures (b | 0x03) as int == (b as int / 4) * 4 + 3 {}

  lemma Or3(b: bv8) ensures (b | 0x07) as int == (b as int / 8) * 8 + 7 {}

  lemma Or4(b: bv8) ensures (b | 0x0F) as int == (b as int / 16) * 16 + 15 {}

  lemma Or5(b: bv8) ensures (b | 0x1F) as int == (b as int / 32) * 32 + 31 {}

  lemma Or6(b: bv8) ensures (b | 0x3F) as int == (b as int / 64) * 64 + 63 {}

  lemma Or7(b: bv8) ensures (b | 0x7F) as int == (b as int / 128) * 128 + 127 {}

  lemma HostByteIsLowBits(bits: nat, i: nat)
    requires bits <= 32 && i < 4
    ensures HostByte(bits, i) as int == HostSize(bits, i) - 1
  {
    assert (0xFF as bv8) >> 1 == 0x7F && (0xFF as bv8) >> 2 == 0x3F && (0xFF as bv8) >> 3 == 0x1F;
    assert (0xFF as bv8) >> 4 == 0x0F;
    assert (0xFF as bv8) >> 5 == 0x07 && (0xFF as bv8) >> 6 == 0x03 && (0xFF as bv8) >> 7 == 0x01;
  }

  /** ORing a byte with its host bits yields the greatest byte of the prefix. */
  lemma OrIsGreatest(b: bv8, bits: nat, i: nat)
    requires bits <= 32 && i < 4
    ensures (b | HostByte(bits, i)) as int == Greatest(b as int, HostSize(bits, i))
  {
    hide HostSize;
    HostByteIsLowBits(bits, i);
    if
    case HostSize(bits, i) == 1 => assert b | 0 == b;
    case HostSize(bits, i) == 2 => Or1(b);
    case HostSize(bits, i) == 4 => Or2(b);
    case HostSize(bits, i) == 8 => Or3(b);
    case HostSize(bits, i) == 16 => Or4(b);
    case HostSize(bits, i) == 32 => Or5(b);
    case HostSize(bits, i) == 64 => Or6(b);
    case HostSize(bits, i) == 128 => Or7(b);
    case HostSize(bits, i) == 256 => assert b | 0xFF == 0xFF;
  }

  lemma OctetBounds(b: Octet, size: nat)
    requires size in {1, 2, 4, 8, 16, 32, 64, 128, 256}
    ensures Least(b, size) <= b <= Greatest(b, size) < 256
    ensures size == 1 ==> Least(b, size) == Greatest(b, size)
    ensures size == 256 ==> Least(b, size) == 0 && Greatest(b, size) == 255
  {
    if
    case size == 1 =>
    case size == 2 =>
    case size == 4 =>
    case size == 8 =>
    case size == 16 =>
    case size == 32 =>
    case size == 64 =>
    case size == 128 =>
    case size == 256 =>
  }

  lemma OctetAgrees(x: Octet, b: Octet, size: nat)
    requires size in {1, 2, 4, 8, 16, 32, 64, 128, 256}
    ensures x / size == b / size <==> Least(b, size) <= x <= Greatest(b, size)
  {
    if
    case size == 1 =>
    case size == 2 =>
    case size == 4 =>
    case size == 8 =>
    case size == 16 =>
    case size == 32 =>
    case size == 64 =>
    case size == 128 =>
    case size == 256 =>
  }

  function FirstOctet(q: Quad, bits: nat, i: nat): (o: Octet)
    requires bits <= 32 && i < 4
  {
    OctetBounds(q[i], HostSize(bits, i));
    Least(q[i], HostSize(bits, i))
  }

  function LastOctet(q: Quad, bits: nat, i: nat): (o: Octet)
    requires bits <= 32 && i < 4
  {
    OctetBounds(q[i], HostSize(bits, i));
    Greatest(q[i], HostSize(bits, i))
  }

  function FirstQuad(q: Quad, bits: nat): Quad
    requires bits <= 32
  {
    [FirstOctet(q, bits, 0), FirstOctet(q, bits, 1), FirstOctet(q, bits, 2), FirstOctet(q, bits, 3)]
  }

  function LastQuad(q: Quad, bits: nat): Quad
    requires bits <= 32
  {
    [LastOctet(q, bits, 0), LastOctet(q, bits, 1), LastOctet(q, bits, 2), LastOctet(q, bits, 3)]
  }

  /** A CIDR prefix together with the block of addresses it stands for. */
  datatype Prefix = V4(bytes: Bytes, bits: nat, first: Address, last: Address) | V6(first: Address, last: Address) {
    ghost predicate Valid() {
      match this
      case V4(bytes, bits, first, last) =>
        && bits <= 32
        && first == FromQuad(FirstQuad(Octets(bytes), bits)) && last == FromQuad(LastQuad(Octets(bytes), bits))
      case V6(first, last) =>
        first <= last && (last < V4_BASE || V4_BASE + 0x1_0000_0000 <= first)
    }

    predicate Contains(a: Address) {
      first <= a <= last
    }
  }

  predicate Agree(x: Quad, q: Quad, bits: nat)
    requires bits <= 32
  {
    forall i :: 0 <= i < 4 ==> x[i] / HostSize(bits, i) == q[i] / HostSize(bits, i)
  }

  /** One more digit: bounds that agree so far compare by the digit, bounds whose
      digit spans everything compare by what came before. */
  lemma OneMoreDigit(l: nat, ld: Octet, x: nat, xd: Octet, h: nat, hd: Octet)
    ensures l == h ==> (Append(l, ld) <= Append(x, xd) <= Append(h, hd) <==> x == l && ld <= xd <= hd)
    ensures ld == 0 && hd == 255 ==> (Append(l, ld) <= Append(x, xd) <= Append(h, hd) <==> l <= x <= h)
  {
  }

  /** A number compares octet by octet with bounds that are equal before one octet
      and span everything after it. */
  lemma OctetwiseInterval(l: Quad, x: Quad, h: Quad, edge: nat)
    requires edge < 4 && l[edge] <= h[edge]
    requires forall i :: 0 <= i < edge ==> l[i] == h[i]
    requires forall i :: edge < i < 4 ==> l[i] == 0 && h[i] == 255
    ensures FromQuad(l) <= FromQuad(x) <= FromQuad(h)
       <==> l[0] <= x[0] <= h[0] && l[1] <= x[1] <= h[1] && l[2] <= x[2] <= h[2] && l[3] <= x[3] <= h[3]
  {
    var l1, x1, h1 := Append(l[0], l[1]), Append(x[0], x[1]), Append(h[0], h[1]);
    var l2, x2, h2 := Append(l1, l[2]), Append(x1, x[2]), Append(h1, h[2]);
    OneMoreDigit(l[0], l[1], x[0], x[1], h[0], h[1]);
    OneMoreDigit(l1, l[2], x1, x[2], h1, h[2]);
    OneMoreDigit(l2, l[3], x2, x[3], h2, h[3]);
  }

  lemma OctetOfBlock(x: Quad, q: Quad, bits: nat, i: nat)
    requires bits <= 32 && i < 4
    ensures var l, h := FirstQuad(q, bits)[i], LastQuad(q, bits)[i];
         && l <= h
         && (8 * (i + 1) <= bits ==> l == h)
         && (bits <= 8 * i ==> l == 0 && h == 255)
         && (x[i] / HostSize(bits, i) == q[i] / HostSize(bits, i) <==> l <= x[i] <= h)
  {
    var size := HostSize(bits, i);
    OctetBounds(q[i], size);
    OctetAgrees(x[i], q[i], size);
    assert FirstQuad(q, bits)[i] == FirstOctet(q, bits, i);
    assert LastQuad(q, bits)[i] == LastOctet(q, bits, i);
  }

  lemma AgreeIsBlock(x: Quad, q: Quad, bits: nat)
    requires bits <= 32
    ensures FromQuad(FirstQuad(q, bits)) <= FromQuad(x) <= FromQuad(LastQuad(q, bits)) <==> Agree(x, q, bits)
  {
    hide HostSize, FirstQuad, LastQuad, FromQuad;
    var edge := if bits == 32 then 3 else bits / 8;
    forall i | 0 <= i < 4 {
      OctetOfBlock(x, q, bits, i);
    }
    OctetwiseInterval(FirstQuad(q, bits), x, LastQuad(q, bits), edge);
  }

  /** The block of an IPv4 prefix is exactly the addresses whose bytes agree with
      it above the host bits, so its last address is the greatest of them. */
  lemma ContainsMeansAgree(x: Quad, p: Prefix)
    requires p.Valid() && p.V4?
    ensures p.Contains(FromQuad(x)) <==> Agree(x, Octets(p.bytes), p.bits)
  {
    AgreeIsBlock(x, Octets(p.bytes), p.bits);
  }

  lemma OredOctetIsLast(filled: Octet, b: bv8, q: Quad, bits: nat, i: nat)
    requires bits <= 32 && i < 4 && q[i] == b as int && filled == (b | HostByte(bits, i)) as int
    ensures filled == LastOctet(q, bits, i)
  {
    OrIsGreatest(b, bits, i);
  }

  lemma OredBytesAreLast(filled: Bytes, b: Bytes, bits: nat)
    requires bits <= 32
    requires forall j :: 0 <= j < 4 ==> filled[j] == b[j] | HostByte(bits, j)
    ensures Octets(filled) == LastQuad(Octets(b), bits)
  {
    forall i | 0 <= i < 4
      ensures Octets(filled)[i] == LastOctet(Octets(b), bits, i)
    {
      OredOctetIsLast(Octets(filled)[i], b[i], Octets(b), bits, i);
    }
  }

  /** The directed broadcast as the allocator computes it, one byte at a time, is
      the last address of the prefix. */
  method DirectedBroadcast(p: Prefix) returns (broadcast: Bytes)
    requires p.Valid() && p.V4?
    ensures FromQuad(Octets(broadcast)) == p.last
  {
    broadcast := [0, 0, 0, 0];
    for i := 0 to 4
      invariant forall j :: 0 <= j < i ==> broadcast[j] == p.bytes[j] | HostByte(p.bits, j)
    {
      broadcast := broadcast[i := p.bytes[i] | HostByte(p.bits, i)];
    }
    OredBytesAreLast(broadcast, p.bytes, p.bits);
  }

  // ----------------------------------------------------------------- address walk

  /** An address or the invalid zero value, which sorts below every address. */
  datatype NetAddr = Zero | At(a: Address) {
    function Next(): NetAddr {
      if At? && a < ALL_ONES then At(a + 1) else Zero
    }

    function Prev(): NetAddr {
      if At? && a > 0 then At(a - 1) else Zero
    }
  }

  predicate Above(end: Address, ip: NetAddr) {
    ip.Zero? || ip.a < end
  }

  /** The guard of the loop that fills a pool from ip up to end. */
  predicate WalkGoesOn(ip: NetAddr, end: Address) {
    Above(end, ip.Prev())
  }

  function WalkAt(start: Address, n: nat): NetAddr {
    if n == 0 then At(start) else WalkAt(start, n - 1).Next()
  }

  lemma {:induction false} WalkAtIs(start: Address, n: nat)
    ensures WalkAt(start, n) == if start + n <= ALL_ONES then At(start + n) else Zero
  {
    if n > 0 {
      WalkAtIs(start, n - 1);
    }
  }

  /** The walk stops exactly when its end is not the very last address: past that
      one the walk falls onto the invalid value and its guard stays true. */
  lemma WalkStopsIff(start: Address, end: Address)
    requires start <= end
    ensures (exists n: nat :: !WalkGoesOn(WalkAt(start, n), end)) <==> end < ALL_ONES
  {
    if end < ALL_ONES {
      WalkAtIs(start, end + 1 - start);
      assert !WalkGoesOn(WalkAt(start, end + 1 - start), end);
    } else {
      forall n: nat
        ensures WalkGoesOn(WalkAt(start, n), end)
      {
        WalkAtIs(start, n);
      }
    }
  }
}
