/**
 * What the NAT classifiers guarantee, judged against full recomputation of every
 * checksum: section 3.1 of RFC 791 for IP headers, section 3.1 of RFC 9293 for TCP,
 * RFC 768 with section 4.1.3.4 of RFC 1122 for UDP, RFC 792 for ICMP.
 */
module PacketNatLaws {
  import opened Basics
  import opened OnesComplement
  import opened PacketNat

  // --- Reference checksums, recomputed from the bytes ---

  predicate HasPlainHeader(p: Packet) {
    |p| >= L4_OFF && p[IP_OFF] % 16 == 5
  }

  predicate HeaderVerifies(p: Packet)
    requires |p| >= L4_OFF
  {
    Verifies(Sum16(p[IP_OFF..L4_OFF]))
  }

  /** Addresses, protocol and length of the pseudo-header, then the segment. */
  function PseudoSum(p: Packet, protocol: byte, length: nat): (sum: nat)
    requires L4_OFF + length <= |p|
    ensures sum >= protocol
  {
    Sum16(p[IP_SRC_OFF..L4_OFF]) + protocol + length + Sum16(p[L4_OFF..L4_OFF + length])
  }

  predicate HasTcp(p: Packet) {
    && HasPlainHeader(p) && p[IP_PROTO_OFF] == IPPROTO_TCP
    && WordAt(p, 16) >= 38 && IP_OFF + WordAt(p, 16) <= |p|
  }

  predicate TcpVerifies(p: Packet)
    requires HasTcp(p)
  {
    Verifies(PseudoSum(p, IPPROTO_TCP, WordAt(p, 16) - 20))
  }

  predicate HasUdp(p: Packet) {
    && HasPlainHeader(p) && p[IP_PROTO_OFF] == IPPROTO_UDP
    && |p| >= UDP_CSUM_OFF + 2 && WordAt(p, 38) >= 8 && L4_OFF + WordAt(p, 38) <= |p|
  }

  /** A zero field means the sender computed no checksum. */
  predicate UdpVerifies(p: Packet)
    requires HasUdp(p)
  {
    WordAt(p, UDP_CSUM_OFF) == 0 || Verifies(PseudoSum(p, IPPROTO_UDP, WordAt(p, 38)))
  }

  predicate HasIcmpError(p: Packet) {
    && HasPlainHeader(p) && p[IP_PROTO_OFF] == IPPROTO_ICMP
    && WordAt(p, 16) >= 48 && IP_OFF + WordAt(p, 16) <= |p|
    && (p[L4_OFF] == ICMP_DEST_UNREACH || p[L4_OFF] == ICMP_TIME_EXCEEDED)
    && p[INNER_IP_OFF] % 16 >= 5 && INNER_IP_OFF + 4 * (p[INNER_IP_OFF] % 16) <= |p|
  }

  function IcmpSum(p: Packet): nat
    requires HasIcmpError(p)
  {
    Sum16(p[L4_OFF..IP_OFF + WordAt(p, 16)])
  }

  predicate InnerHeaderVerifies(p: Packet)
    requires HasIcmpError(p)
  {
    Verifies(Sum16(p[INNER_IP_OFF..INNER_IP_OFF + 4 * (p[INNER_IP_OFF] % 16)]))
  }

  // --- The incremental update ---

  /** The updated field moves by exactly the address difference, modulo 0xFFFF. */
  lemma UpdatedResidue(hc: word, from: Addr, to: Addr, mangleZero: bool)
    ensures (Updated(hc, from, to, mangleZero) - hc + to.Sum() - from.Sum()) % 0xFFFF == 0
    ensures mangleZero ==> Updated(hc, from, to, mangleZero) != 0
    ensures !mangleZero && (hc != MAX16 || to.Sum() > 0) ==> Updated(hc, from, to, mangleZero) != MAX16
  {
    hide Fold;
    var sum := Complement(hc) + Complement(from.hi) + Complement(from.lo) + to.hi + to.lo;
    var f := Fold(sum);
    assert (f - sum) % 0xFFFF == 0;
    var q := Quotient(f - sum);
    var r := Updated(hc, from, to, mangleZero);
    var shift := r - hc + to.Sum() - from.Sum();
    MultipleResidue(shift, if r == MAX16 - f then -q - 2 else -q - 1);
  }

  lemma UpdatedTwice(hc: word, a: Addr, b: Addr, mangleZero: bool)
    requires a.Sum() > 0
    requires mangleZero ==> hc != 0
    ensures Updated(Updated(hc, a, b, mangleZero), b, a, mangleZero)
         == if !mangleZero && hc == MAX16 then 0 else hc
  {
    hide Updated;
    var there := Updated(hc, a, b, mangleZero);
    var back := Updated(there, b, a, mangleZero);
    UpdatedResidue(hc, a, b, mangleZero);
    UpdatedResidue(there, b, a, mangleZero);
    AddResidues(there - hc + b.Sum() - a.Sum(), back - there + a.Sum() - b.Sum());
    SameResidue(back, hc);
  }

  // --- Network order does not matter (section 2(B) of RFC 1071) ---

  function Swapped(w: word): word {
    256 * (w % 256) + w / 256
  }

  function SwappedAddr(a: Addr): Addr {
    Addr(Swapped(a.hi), Swapped(a.lo))
  }

  /** Swapping is multiplication by 256, modulo 0xFFFF. */
  lemma SwappedResidue(w: word) returns (q: int)
    ensures Swapped(w) == 256 * w - 0xFFFF * q
    ensures Swapped(Complement(w)) == Complement(Swapped(w))
    ensures Swapped(w) == 0 <==> w == 0
  {
    q := w / 256;
  }

  /** A little-endian machine, which loads every field byte-swapped, stores the same bytes. */
  lemma ByteOrderIndependent(hc: word, from: Addr, to: Addr, mangleZero: bool)
    ensures Updated(Swapped(hc), SwappedAddr(from), SwappedAddr(to), mangleZero)
         == Swapped(Updated(hc, from, to, mangleZero))
  {
    hide Swapped, Fold;
    var _ := SwappedResidue(hc);
    var _ := SwappedResidue(from.hi);
    var _ := SwappedResidue(from.lo);
    FoldSwapped(Complement(hc), Complement(from.hi), Complement(from.lo), to.hi, to.lo);
    var f := Fold(Complement(hc) + Complement(from.hi) + Complement(from.lo) + to.hi + to.lo);
    var _ := SwappedResidue(f);
    var _ := SwappedResidue(Complement(f));
  }

  lemma FoldSwapped(a: word, b: word, c: word, d: word, e: word)
    ensures Fold(Swapped(a) + Swapped(b) + Swapped(c) + Swapped(d) + Swapped(e)) == Swapped(Fold(a + b + c + d + e))
  {
    hide Swapped, Fold;
    var qa := SwappedResidue(a);
    var qb := SwappedResidue(b);
    var qc := SwappedResidue(c);
    var qd := SwappedResidue(d);
    var qe := SwappedResidue(e);
    var little := Swapped(a) + Swapped(b) + Swapped(c) + Swapped(d) + Swapped(e);
    FoldMultiple(a + b + c + d + e, little, qa + qb + qc + qd + qe);
  }

  lemma FoldMultiple(big: nat, little: nat, carries: int)
    requires little == 256 * big - 0xFFFF * carries
    requires little == 0 <==> big == 0
    ensures Fold(little) == Swapped(Fold(big))
  {
    hide Fold, Swapped;
    var f := Fold(big);
    var qf := SwappedResidue(f);
    assert (f - big) % 0xFFFF == 0 && (Fold(little) - little) % 0xFFFF == 0;
    var k := Quotient(f - big);
    var q := 256 * k - qf + carries;
    MultipleResidue(Swapped(f) - little, q);
    AddResidues(Fold(little) - little, Swapped(f) - little);
    SameResidue(Fold(little), Swapped(f));
  }

  // --- Sums over ranges after the edits ---

  lemma {:induction false} PutAddrInside(p: Packet, lo: nat, hi: nat, j: nat, a: Addr)
    requires lo + 2 * j + 4 <= hi <= |p|
    ensures var off := lo + 2 * j;
            Sum16(PutAddr(p, off, a)[lo..hi]) == Sum16(p[lo..hi]) - AddrAt(p, off).Sum() + a.Sum()
  {
    var off := lo + 2 * j;
    PatchInside(p, lo, hi, j, a.hi);
    PatchInside(Patch(p, off, a.hi), lo, hi, j + 1, a.lo);
  }

  /** The outer rewrite leaves the header sum alone, modulo 0xFFFF. */
  lemma {:induction false} OuterHeaderSum(p: Packet, addrOff: nat, from: Addr, to: Addr)
    requires |p| >= L4_OFF && (addrOff == IP_SRC_OFF || addrOff == IP_DST_OFF) && AddrAt(p, addrOff) == from
    ensures var q := TranslateOuter(p, addrOff, from, to);
            (Sum16(q[IP_OFF..L4_OFF]) - Sum16(p[IP_OFF..L4_OFF])) % 0xFFFF == 0
  {
    hide Patch, Updated, Fold, Sum16;
    var r := PutAddr(p, addrOff, to);
    var hc := WordAt(r, IP_CSUM_OFF);
    var hc' := Updated(hc, from, to, false);
    PutAddrInside(p, IP_OFF, L4_OFF, if addrOff == IP_SRC_OFF then 6 else 8, to);
    PatchInside(r, IP_OFF, L4_OFF, 5, hc');
    UpdatedResidue(hc, from, to, false);
    var q := TranslateOuter(p, addrOff, from, to);
    assert Sum16(q[IP_OFF..L4_OFF]) - Sum16(p[IP_OFF..L4_OFF]) == hc' - hc + to.Sum() - from.Sum();
  }

  /** It moves the address sum by the difference and touches nothing else. */
  lemma {:induction false} OuterAddressSum(p: Packet, addrOff: nat, from: Addr, to: Addr)
    requires |p| >= L4_OFF && (addrOff == IP_SRC_OFF || addrOff == IP_DST_OFF) && AddrAt(p, addrOff) == from
    ensures var q := TranslateOuter(p, addrOff, from, to);
            && Sum16(q[IP_SRC_OFF..L4_OFF]) == Sum16(p[IP_SRC_OFF..L4_OFF]) - from.Sum() + to.Sum()
            && q[L4_OFF..] == p[L4_OFF..] && q[..IP_CSUM_OFF] == p[..IP_CSUM_OFF]
  {
    var r := PutAddr(p, addrOff, to);
    PutAddrInside(p, IP_SRC_OFF, L4_OFF, if addrOff == IP_SRC_OFF then 0 else 2, to);
    PatchOutside(r, IP_SRC_OFF, L4_OFF, IP_CSUM_OFF, Updated(WordAt(r, IP_CSUM_OFF), from, to, false));
  }

  // --- Main results, for both directions at once ---

  /** `from` stands at the address field of one of the two directions. */
  ghost predicate Translatable(p: Packet, addrOff: nat, innerOff: nat, from: Addr) {
    && HasPlainHeader(p)
    && (|| (addrOff == IP_SRC_OFF && innerOff == INNER_IP_DST_OFF)
        || (addrOff == IP_DST_OFF && innerOff == INNER_IP_SRC_OFF))
    && AddrAt(p, addrOff) == from
  }

  /** The bytes a translation may change. */
  predicate Touched(p: Packet, addrOff: nat, innerOff: nat, k: nat)
    requires |p| >= L4_OFF
  {
    || IP_CSUM_OFF <= k < IP_CSUM_OFF + 2 || addrOff <= k < addrOff + 4
    || (p[IP_PROTO_OFF] == IPPROTO_TCP && TCP_CSUM_OFF <= k < TCP_CSUM_OFF + 2)
    || (p[IP_PROTO_OFF] == IPPROTO_UDP && UDP_CSUM_OFF <= k < UDP_CSUM_OFF + 2
        && |p| >= UDP_CSUM_OFF + 2 && WordAt(p, UDP_CSUM_OFF) != 0)
    || (p[IP_PROTO_OFF] == IPPROTO_ICMP && |p| > L4_OFF && CarriesEmbeddedHeader(p)
        && (ICMP_CSUM_OFF <= k < ICMP_CSUM_OFF + 2 || INNER_IP_CSUM_OFF <= k < INNER_IP_CSUM_OFF + 2
            || innerOff <= k < innerOff + 4))
  }

  lemma {:induction false} TranslateFrame(p: Packet, addrOff: nat, innerOff: nat, from: Addr, to: Addr)
    requires Translatable(p, addrOff, innerOff, from)
    ensures var q := Translate(p, addrOff, innerOff, from, to).packet;
            && AddrAt(q, addrOff) == to
            && forall k :: 0 <= k < |p| && !Touched(p, addrOff, innerOff, k) ==> q[k] == p[k]
  {
    hide TranslateOuter, TranslateEmbedded, ReplaceChecksum;
    var q := TranslateOuter(p, addrOff, from, to);
    assert q[IP_PROTO_OFF] == p[IP_PROTO_OFF];
    assert forall k :: L4_OFF <= k < |p| ==> q[k] == p[k];
  }

  /** Beyond the outer rewrite, nothing before the transport header changes. */
  lemma {:induction false} TranslateHead(p: Packet, addrOff: nat, innerOff: nat, from: Addr, to: Addr)
    requires Translatable(p, addrOff, innerOff, from)
    ensures Translate(p, addrOff, innerOff, from, to).packet[..L4_OFF] == TranslateOuter(p, addrOff, from, to)[..L4_OFF]
  {
  }

  lemma LowNibble(b: byte)
    requires b % 16 >= 5
    ensures b > 0
  {
  }

  lemma {:induction false} TranslateKeepsHeaderChecksum(p: Packet, addrOff: nat, innerOff: nat, from: Addr, to: Addr)
    requires Translatable(p, addrOff, innerOff, from)
    ensures HeaderVerifies(Translate(p, addrOff, innerOff, from, to).packet) <==> HeaderVerifies(p)
  {
    hide Patch, Updated, Fold, Sum16;
    var q := TranslateOuter(p, addrOff, from, to);
    var t := Translate(p, addrOff, innerOff, from, to).packet;
    TranslateHead(p, addrOff, innerOff, from, to);
    assert t[IP_OFF..L4_OFF] == t[..L4_OFF][IP_OFF..] == q[..L4_OFF][IP_OFF..] == q[IP_OFF..L4_OFF];
    OuterHeaderSum(p, addrOff, from, to);
    OuterAddressSum(p, addrOff, from, to);
    LowNibble(p[IP_OFF]);
    assert q[IP_OFF] == p[IP_OFF];
    Sum16Positive(p[IP_OFF..L4_OFF], 0);
    Sum16Positive(q[IP_OFF..L4_OFF], 0);
    VerifiesShift(Sum16(p[IP_OFF..L4_OFF]), Sum16(q[IP_OFF..L4_OFF]));
  }

  /** Updating the field at `off` compensates for the pseudo-header's address change. */
  lemma {:induction false} PseudoSumKept(
    p: Packet, addrOff: nat, from: Addr, to: Addr, protocol: byte, length: nat, j: nat, mangleZero: bool)
    requires |p| >= L4_OFF && (addrOff == IP_SRC_OFF || addrOff == IP_DST_OFF) && AddrAt(p, addrOff) == from
    requires L4_OFF + 2 * j + 2 <= L4_OFF + length <= |p|
    ensures var q := ReplaceChecksum(TranslateOuter(p, addrOff, from, to), L4_OFF + 2 * j, from, to, mangleZero);
            (PseudoSum(q, protocol, length) - PseudoSum(p, protocol, length)) % 0xFFFF == 0
  {
    hide TranslateOuter, ReplaceChecksum, Updated, PseudoSum, WordAt;
    var q, off := TranslateOuter(p, addrOff, from, to), L4_OFF + 2 * j;
    PseudoSumMoves(p, addrOff, from, to, protocol, length);
    FieldMovesPseudoSum(q, from, to, protocol, length, j, mangleZero);
    UpdatedResidue(WordAt(q, off), from, to, mangleZero);
    SameMultiple(
      PseudoSum(ReplaceChecksum(q, off, from, to, mangleZero), protocol, length) - PseudoSum(p, protocol, length),
      Updated(WordAt(q, off), from, to, mangleZero) - WordAt(q, off) + to.Sum() - from.Sum());
  }

  lemma SameMultiple(x: int, y: int)
    requires x == y && y % 0xFFFF == 0
    ensures x % 0xFFFF == 0
  {
  }

  /** The outer rewrite moves the pseudo-header sum by the address difference. */
  lemma {:induction false} PseudoSumMoves(
    p: Packet, addrOff: nat, from: Addr, to: Addr, protocol: byte, length: nat)
    requires |p| >= L4_OFF && (addrOff == IP_SRC_OFF || addrOff == IP_DST_OFF) && AddrAt(p, addrOff) == from
    requires L4_OFF + length <= |p|
    ensures PseudoSum(TranslateOuter(p, addrOff, from, to), protocol, length)
         == PseudoSum(p, protocol, length) - from.Sum() + to.Sum()
  {
    hide TranslateOuter, Sum16;
    OuterAddressSum(p, addrOff, from, to);
    var q, hi := TranslateOuter(p, addrOff, from, to), L4_OFF + length;
    assert q[L4_OFF..hi] == q[L4_OFF..][..length] == p[L4_OFF..][..length] == p[L4_OFF..hi];
  }

  /** A checksum update moves it by the change of the field. */
  lemma {:induction false} FieldMovesPseudoSum(
    q: Packet, from: Addr, to: Addr, protocol: byte, length: nat, j: nat, mangleZero: bool)
    requires 2 * j + 2 <= length && L4_OFF + length <= |q|
    ensures var hc, r := WordAt(q, L4_OFF + 2 * j), ReplaceChecksum(q, L4_OFF + 2 * j, from, to, mangleZero);
            PseudoSum(r, protocol, length) == PseudoSum(q, protocol, length) - hc + Updated(hc, from, to, mangleZero)
  {
    hide Patch, Updated, Sum16;
    var off := L4_OFF + 2 * j;
    var hc' := Updated(WordAt(q, off), from, to, mangleZero);
    PatchInside(q, L4_OFF, L4_OFF + length, j, hc');
    PatchOutside(q, IP_SRC_OFF, L4_OFF, off, hc');
  }

  lemma {:induction false} TranslateKeepsTcpChecksum(p: Packet, addrOff: nat, innerOff: nat, from: Addr, to: Addr)
    requires Translatable(p, addrOff, innerOff, from) && HasTcp(p)
    ensures var r := Translate(p, addrOff, innerOff, from, to);
            r.verdict == Pipe && HasTcp(r.packet) && (TcpVerifies(r.packet) <==> TcpVerifies(p))
  {
    hide TranslateOuter, ReplaceChecksum, PseudoSum, Verifies;
    var q := Translate(p, addrOff, innerOff, from, to).packet;
    TranslateFrame(p, addrOff, innerOff, from, to);
    assert WordAt(q, 16) == WordAt(p, 16);
    var length := WordAt(p, 16) - 20;
    PseudoSumKept(p, addrOff, from, to, IPPROTO_TCP, length, 8, false);
    VerifiesShift(PseudoSum(p, IPPROTO_TCP, length), PseudoSum(q, IPPROTO_TCP, length));
  }

  /** An absent UDP checksum stays absent, a present one stays present and equally valid. */
  lemma {:induction false} TranslateKeepsUdpChecksum(p: Packet, addrOff: nat, innerOff: nat, from: Addr, to: Addr)
    requires Translatable(p, addrOff, innerOff, from) && HasUdp(p)
    ensures var r := Translate(p, addrOff, innerOff, from, to);
            && r.verdict == Pipe && HasUdp(r.packet) && (UdpVerifies(r.packet) <==> UdpVerifies(p))
            && (WordAt(r.packet, UDP_CSUM_OFF) == 0 <==> WordAt(p, UDP_CSUM_OFF) == 0)
  {
    hide TranslateOuter, Patch, Updated, PseudoSum, Verifies;
    var q := Translate(p, addrOff, innerOff, from, to).packet;
    TranslateFrame(p, addrOff, innerOff, from, to);
    assert WordAt(q, 38) == WordAt(p, 38);
    var hc := WordAt(p, UDP_CSUM_OFF);
    assert WordAt(TranslateOuter(p, addrOff, from, to), UDP_CSUM_OFF) == hc;
    UpdatedResidue(hc, from, to, true);
    if hc != 0 {
      var length := WordAt(p, 38);
      PseudoSumKept(p, addrOff, from, to, IPPROTO_UDP, length, 3, true);
      VerifiesShift(PseudoSum(p, IPPROTO_UDP, length), PseudoSum(q, IPPROTO_UDP, length));
    }
  }

  // --- ICMP errors that embed a header ---

  ghost predicate EmbedsAddress(p: Packet, addrOff: nat, innerOff: nat, from: Addr) {
    Translatable(p, addrOff, innerOff, from) && HasIcmpError(p) && AddrAt(p, innerOff) == from
  }

  lemma {:induction false} EmbeddedShape(p: Packet, addrOff: nat, innerOff: nat, from: Addr, to: Addr)
    requires EmbedsAddress(p, addrOff, innerOff, from)
    ensures var q := TranslateOuter(p, addrOff, from, to);
            && Translate(p, addrOff, innerOff, from, to) == Outcome(TranslateEmbedded(q, innerOff, from, to), Pipe)
            && HasIcmpError(Translate(p, addrOff, innerOff, from, to).packet)
            && q[L4_OFF..] == p[L4_OFF..]
  {
    hide Patch, Updated, Fold, Sum16;
    TranslateFrame(p, addrOff, innerOff, from, to);
    var q := TranslateOuter(p, addrOff, from, to);
    assert WordAt(q, 16) == WordAt(p, 16);
    assert AddrAt(q, innerOff) == AddrAt(p, innerOff);
  }

  /** Over the embedded header the address and checksum changes cancel. */
  lemma {:induction false} EmbeddedHeaderSum(q: Packet, innerOff: nat, from: Addr, to: Addr, hi: nat)
    requires MIN_ICMP_ERROR_LEN <= hi <= |q| && (innerOff == INNER_IP_SRC_OFF || innerOff == INNER_IP_DST_OFF)
    requires AddrAt(q, innerOff) == from
    ensures var r := TranslateEmbedded(q, innerOff, from, to);
            (Sum16(r[INNER_IP_OFF..hi]) - Sum16(q[INNER_IP_OFF..hi])) % 0xFFFF == 0
  {
    hide Patch, Updated, Fold, Sum16;
    var lo := INNER_IP_OFF;
    PutAddrInside(q, lo, hi, if innerOff == INNER_IP_SRC_OFF then 6 else 8, to);
    var q1 := PutAddr(q, innerOff, to);
    var hc := WordAt(q1, INNER_IP_CSUM_OFF);
    var hc' := Updated(hc, from, to, false);
    PatchInside(q1, lo, hi, 5, hc');
    var q2 := Patch(q1, INNER_IP_CSUM_OFF, hc');
    PatchOutside(q2, lo, hi, ICMP_CSUM_OFF, Updated(WordAt(q2, ICMP_CSUM_OFF), from, to, false));
    UpdatedResidue(hc, from, to, false);
    assert Sum16(q2[lo..hi]) - Sum16(q[lo..hi]) == hc' - hc + to.Sum() - from.Sum();
  }

  /** So over the whole message the outer checksum update is left over. */
  lemma {:induction false} EmbeddedMessageSum(q: Packet, innerOff: nat, from: Addr, to: Addr, hi: nat)
    requires MIN_ICMP_ERROR_LEN <= hi <= |q| && (innerOff == INNER_IP_SRC_OFF || innerOff == INNER_IP_DST_OFF)
    requires AddrAt(q, innerOff) == from
    ensures var r := TranslateEmbedded(q, innerOff, from, to);
            (Sum16(r[L4_OFF..hi]) - Sum16(q[L4_OFF..hi]) - from.Sum() + to.Sum()) % 0xFFFF == 0
  {
    hide Patch, Updated, Fold, Sum16;
    var lo := L4_OFF;
    PutAddrInside(q, lo, hi, if innerOff == INNER_IP_SRC_OFF then 10 else 12, to);
    var q1 := PutAddr(q, innerOff, to);
    var ic := WordAt(q1, INNER_IP_CSUM_OFF);
    var ic' := Updated(ic, from, to, false);
    PatchInside(q1, lo, hi, 9, ic');
    var q2 := Patch(q1, INNER_IP_CSUM_OFF, ic');
    var oc := WordAt(q2, ICMP_CSUM_OFF);
    var oc' := Updated(oc, from, to, false);
    PatchInside(q2, lo, hi, 1, oc');
    UpdatedResidue(ic, from, to, false);
    UpdatedResidue(oc, from, to, false);
    AddResidues(ic' - ic + to.Sum() - from.Sum(), oc' - oc + to.Sum() - from.Sum());
    SameMultiple(
      Sum16(Patch(q2, ICMP_CSUM_OFF, oc')[lo..hi]) - Sum16(q[lo..hi]) - from.Sum() + to.Sum(),
      ic' - ic + to.Sum() - from.Sum() + (oc' - oc + to.Sum() - from.Sum()));
  }

  lemma {:induction false} TranslateKeepsInnerChecksum(p: Packet, addrOff: nat, innerOff: nat, from: Addr, to: Addr)
    requires EmbedsAddress(p, addrOff, innerOff, from)
    ensures var q := Translate(p, addrOff, innerOff, from, to).packet;
            HasIcmpError(q) && (InnerHeaderVerifies(q) <==> InnerHeaderVerifies(p))
  {
    hide Translate, TranslateOuter, TranslateEmbedded, Sum16, Verifies;
    EmbeddedShape(p, addrOff, innerOff, from, to);
    TranslateFrame(p, addrOff, innerOff, from, to);
    var q0, q := TranslateOuter(p, addrOff, from, to), Translate(p, addrOff, innerOff, from, to).packet;
    var lo, hi := INNER_IP_OFF, INNER_IP_OFF + 4 * (p[INNER_IP_OFF] % 16);
    assert q0[lo..hi] == p[lo..hi];
    assert AddrAt(q0, innerOff) == from;
    EmbeddedHeaderSum(q0, innerOff, from, to, hi);
    assert q[lo] == p[lo];
    LowNibble(p[lo]);
    Sum16Positive(p[lo..hi], 0);
    Sum16Positive(q[lo..hi], 0);
    VerifiesShift(Sum16(p[lo..hi]), Sum16(q[lo..hi]));
  }

  /** The ICMP sum moves by exactly `from - to`, modulo 0xFFFF. */
  lemma {:induction false} TranslateShiftsIcmpSum(p: Packet, addrOff: nat, innerOff: nat, from: Addr, to: Addr)
    requires EmbedsAddress(p, addrOff, innerOff, from)
    ensures var q := Translate(p, addrOff, innerOff, from, to).packet;
            && HasIcmpError(q) && IcmpSum(q) > 0 && IcmpSum(p) > 0
            && (IcmpSum(q) - IcmpSum(p) - from.Sum() + to.Sum()) % 0xFFFF == 0
  {
    hide Translate, TranslateOuter, TranslateEmbedded, Sum16, Verifies;
    EmbeddedShape(p, addrOff, innerOff, from, to);
    TranslateFrame(p, addrOff, innerOff, from, to);
    var q0, q := TranslateOuter(p, addrOff, from, to), Translate(p, addrOff, innerOff, from, to).packet;
    var lo, hi := L4_OFF, IP_OFF + WordAt(p, 16);
    assert q0[lo..hi] == q0[lo..][..hi - lo] == p[lo..hi];
    assert AddrAt(q0, innerOff) == from;
    EmbeddedMessageSum(q0, innerOff, from, to, hi);
    assert WordAt(q, 16) == WordAt(p, 16);
    Sum16Positive(p[lo..hi], 0);
    Sum16Positive(q[lo..hi], 0);
  }

  /**
   * A valid ICMP error leaves with a valid ICMP checksum exactly when the two addresses
   * have equal word sums modulo 0xFFFF; any other host address invalidates it.
   */
  lemma {:induction false} IcmpChecksumKeptExactlyWhen(p: Packet, addrOff: nat, innerOff: nat, from: Addr, to: Addr)
    requires EmbedsAddress(p, addrOff, innerOff, from) && Verifies(IcmpSum(p))
    ensures var q := Translate(p, addrOff, innerOff, from, to).packet;
            HasIcmpError(q) && (Verifies(IcmpSum(q)) <==> (to.Sum() - from.Sum()) % 0xFFFF == 0)
  {
    hide Translate, Verifies, IcmpSum, HasIcmpError;
    TranslateShiftsIcmpSum(p, addrOff, innerOff, from, to);
    var q := Translate(p, addrOff, innerOff, from, to).packet;
    VerifiesShift(IcmpSum(p), IcmpSum(q));
    OppositeResidues(IcmpSum(q) - IcmpSum(p), to.Sum() - from.Sum());
  }

  // --- A concrete ICMP error and a host address that break it ---

  /** Words laid out in network order. */
  function Bytes(ws: seq<word>): (s: seq<byte>)
    ensures |s| == 2 * |ws|
  {
    seq(2 * |ws|, k requires 0 <= k < 2 * |ws| => if k % 2 == 0 then ws[k / 2] / 256 else ws[k / 2] % 256)
  }

  function Total(ws: seq<word>): nat {
    if ws == [] then 0 else ws[0] + Total(ws[1..])
  }

  lemma BytesAt(ws: seq<word>, i: nat)
    requires i < |ws|
    ensures WordAt(Bytes(ws), 2 * i) == ws[i]
    ensures Bytes(ws)[2 * i] == ws[i] / 256 && Bytes(ws)[2 * i + 1] == ws[i] % 256
  {
  }

  lemma BytesSlice(ws: seq<word>, i: nat, j: nat)
    requires i <= j <= |ws|
    ensures Bytes(ws)[2 * i..2 * j] == Bytes(ws[i..j])
  {
  }

  lemma {:induction false} BytesSum(ws: seq<word>)
    ensures Sum16(Bytes(ws)) == Total(ws)
    decreases |ws|
  {
    if ws == [] {
    } else {
      assert Bytes(ws)[2..] == Bytes(ws[1..]);
      BytesSum(ws[1..]);
    }
  }

  // Destination unreachable, from the guest to 93.184.216.34, about a UDP packet from there.
  const ETHERNET: seq<word> := [0x0200, 0x0000, 0x0001, 0x0200, 0x0000, 0x0002, 0x0800]
  const OUTER_IP: seq<word> :=
    [0x4500, 0x0038, 0x1C46, 0x0000, 0x4001, 0x7DA4, 0xA9FE, 0x0102, 0x5DB8, 0xD822]
  const ICMP: seq<word> := [0x0303, 0x607F, 0x0000, 0x0000]
  const INNER_IP: seq<word> :=
    [0x4500, 0x001C, 0x2B7F, 0x0000, 0x3811, 0x7677, 0x5DB8, 0xD822, 0xA9FE, 0x0102]
  const INNER_UDP: seq<word> := [0x0035, 0x9C40, 0x0008, 0x0000]
  const SAMPLE: seq<word> := ETHERNET + OUTER_IP + ICMP + INNER_IP + INNER_UDP

  function SampleIcmpError(): (p: Packet)
    ensures |p| == 70
  {
    Bytes(SAMPLE)
  }

  lemma SampleTotals()
    ensures Total(OUTER_IP) == 0x2FFFD && Total(INNER_IP) == 0x2FFFD
    ensures Total(ICMP) == 0x6382 && Total(INNER_UDP) == 0x9C7D
  {
  }

  lemma {:induction false} SampleSlices()
    ensures SAMPLE[7..17] == OUTER_IP && SAMPLE[21..31] == INNER_IP
    ensures SAMPLE[17..35] == ICMP + INNER_IP + INNER_UDP
  {
  }

  lemma {:induction false} SampleSums()
    ensures var p := SampleIcmpError();
            Sum16(p[14..34]) == 0x2FFFD && Sum16(p[34..70]) == 0x3FFFC && Sum16(p[42..62]) == 0x2FFFD
  {
    assert |SAMPLE| == 35;
    hide Bytes, Sum16, Total, SAMPLE, OUTER_IP, INNER_IP, ICMP, INNER_UDP;
    BytesSlice(SAMPLE, 7, 17);
    BytesSlice(SAMPLE, 17, 35);
    BytesSlice(SAMPLE, 21, 31);
    SampleSlices();
    BytesSum(OUTER_IP);
    BytesSum(ICMP + INNER_IP + INNER_UDP);
    BytesSum(INNER_IP);
    TotalAppend(ICMP, INNER_IP);
    TotalAppend(ICMP + INNER_IP, INNER_UDP);
    SampleTotals();
  }

  lemma {:induction false} TotalAppend(a: seq<word>, b: seq<word>)
    ensures Total(a + b) == Total(a) + Total(b)
    decreases |a|
  {
    if a == [] {
      assert a + b == b;
    } else {
      assert (a + b)[1..] == a[1..] + b;
      TotalAppend(a[1..], b);
    }
  }

  lemma {:induction false} SampleShape()
    ensures var p := SampleIcmpError();
            && EmbedsAddress(p, IP_SRC_OFF, INNER_IP_DST_OFF, GUEST_IP) && IsIpv4(p)
            && AddrAt(p, IP_DST_OFF) == Addr(0x5DB8, 0xD822) && WordAt(p, 16) == 56
            && p[INNER_IP_OFF] % 16 == 5
  {
    hide Bytes;
    BytesAt(SAMPLE, 6);
    BytesAt(SAMPLE, 7);
    BytesAt(SAMPLE, 8);
    BytesAt(SAMPLE, 11);
    BytesAt(SAMPLE, 13);
    BytesAt(SAMPLE, 14);
    BytesAt(SAMPLE, 15);
    BytesAt(SAMPLE, 16);
    BytesAt(SAMPLE, 17);
    BytesAt(SAMPLE, 21);
    BytesAt(SAMPLE, 29);
    BytesAt(SAMPLE, 30);
  }

  lemma {:induction false} SampleVerifies()
    ensures var p := SampleIcmpError();
            HasIcmpError(p) && HeaderVerifies(p) && InnerHeaderVerifies(p) && Verifies(IcmpSum(p))
  {
    hide Sum16, SampleIcmpError, HasIcmpError, Verifies, WordAt;
    SampleShape();
    SampleSums();
    VerifiesByResidue(0x2FFFD);
    VerifiesByResidue(0x3FFFC);
  }

  /**
   * The guest's error is valid in every header, and leaves with an invalid ICMP checksum
   * when the host address is 10.0.0.1.
   */
  lemma {:induction false} IcmpErrorInvalidated()
    ensures var p, host := SampleIcmpError(), Addr(0x0A00, 0x0001);
            && HasIcmpError(p) && HeaderVerifies(p) && InnerHeaderVerifies(p) && Verifies(IcmpSum(p))
            && Egress(p, Some(host)).verdict == Pipe
            && HasIcmpError(Egress(p, Some(host)).packet) && !Verifies(IcmpSum(Egress(p, Some(host)).packet))
  {
    hide Sum16, Updated, Translate, SampleIcmpError, HasIcmpError, Verifies, IcmpSum, HeaderVerifies, WordAt;
    hide InnerHeaderVerifies;
    SampleShape();
    SampleVerifies();
    var p, host := SampleIcmpError(), Addr(0x0A00, 0x0001);
    EmbeddedShape(p, IP_SRC_OFF, INNER_IP_DST_OFF, GUEST_IP, host);
    IcmpChecksumKeptExactlyWhen(p, IP_SRC_OFF, INNER_IP_DST_OFF, GUEST_IP, host);
  }

  // --- Verdicts, from the bytes ---

  predicate HasIpv4Type(p: Packet)
    requires |p| >= 14
  {
    p[12] == 0x08 && p[13] == 0x00
  }

  /** The frame reaches the checksum its protocol is updated at; ICMP needs its type byte. */
  predicate LongEnough(p: Packet)
    requires |p| >= 34
  {
    && (p[23] == 6 ==> |p| >= 52)
    && (p[23] == 17 ==> |p| >= 42)
    && (p[23] == 1 ==> |p| >= 35)
  }

  lemma AddrBytes(p: Packet, off: nat, a: byte, b: byte, c: byte, d: byte)
    requires off + 4 <= |p|
    ensures AddrAt(p, off) == Addr(256 * a + b, 256 * c + d) <==> p[off..off + 4] == [a, b, c, d]
  {
  }

  lemma {:induction false} TranslateVerdict(p: Packet, addrOff: nat, innerOff: nat, from: Addr, to: Addr)
    requires |p| >= L4_OFF && IP_SRC_OFF <= addrOff <= IP_DST_OFF && innerOff + 4 <= MIN_ICMP_ERROR_LEN
    ensures Translate(p, addrOff, innerOff, from, to).verdict == Pipe <==> LongEnough(p)
  {
    hide TranslateOuter, TranslateEmbedded, ReplaceChecksum, AddrAt;
  }

  /**
   * What egress does with every frame: too short for a type, dropped; not IPv4, passed as it
   * is; IPv4, passed exactly when it has a whole header, comes from 169.254.1.2, is not for
   * 169.254.169.254, a host address is configured, and it is long enough for its protocol.
   */
  lemma {:induction false} EgressExactly(p: Packet, hostIp: Option<Addr>)
    ensures |p| < 14 ==> Egress(p, hostIp) == Outcome(p, Shot)
    ensures |p| >= 14 && !HasIpv4Type(p) ==> Egress(p, hostIp) == Outcome(p, Pipe)
    ensures |p| >= 14 && HasIpv4Type(p) ==>
              (Egress(p, hostIp).verdict == Pipe <==>
                 && |p| >= 34 && p[26..30] == [169, 254, 1, 2] && p[30..34] != [169, 254, 169, 254]
                 && hostIp.Some? && LongEnough(p))
  {
    hide Translate, LongEnough;
    if |p| >= 34 {
      AddrBytes(p, 26, 169, 254, 1, 2);
      AddrBytes(p, 30, 169, 254, 169, 254);
      if hostIp.Some? {
        TranslateVerdict(p, IP_SRC_OFF, INNER_IP_DST_OFF, AddrAt(p, IP_SRC_OFF), hostIp.value);
      }
    }
  }

  /**
   * And ingress: a packet for another address passes as it is; one for the host address
   * passes exactly when it is long enough for its protocol.
   */
  lemma {:induction false} IngressExactly(p: Packet, hostIp: Option<Addr>)
    ensures |p| < 14 ==> Ingress(p, hostIp) == Outcome(p, Shot)
    ensures |p| >= 14 && !HasIpv4Type(p) ==> Ingress(p, hostIp) == Outcome(p, Pipe)
    ensures |p| >= 14 && HasIpv4Type(p) && (|p| < 34 || hostIp.None?) ==> Ingress(p, hostIp) == Outcome(p, Shot)
    ensures |p| >= 34 && HasIpv4Type(p) && hostIp.Some? && AddrAt(p, 30) != hostIp.value ==>
              Ingress(p, hostIp) == Outcome(p, Pipe)
    ensures |p| >= 34 && HasIpv4Type(p) && hostIp.Some? && AddrAt(p, 30) == hostIp.value ==>
              (Ingress(p, hostIp).verdict == Pipe <==> LongEnough(p))
  {
    hide Translate, LongEnough;
    if |p| >= 34 && hostIp.Some? {
      TranslateVerdict(p, IP_DST_OFF, INNER_IP_SRC_OFF, AddrAt(p, IP_DST_OFF), GUEST_IP);
    }
  }

  // --- Payloads ---

  /** An ICMP error about a packet of the rewritten address. */
  predicate EmbedsHere(p: Packet, innerOff: nat, from: Addr)
    requires innerOff + 4 <= MIN_ICMP_ERROR_LEN && |p| >= L4_OFF
  {
    p[IP_PROTO_OFF] == IPPROTO_ICMP && |p| > L4_OFF && CarriesEmbeddedHeader(p) && AddrAt(p, innerOff) == from
  }

  /**
   * Where there is no transport checksum and no embedded address to rewrite, everything after
   * the IP header stays; an embedded address is rewritten, with exactly the two checksums.
   */
  lemma {:induction false} PayloadExactly(p: Packet, addrOff: nat, innerOff: nat, from: Addr, to: Addr)
    requires Translatable(p, addrOff, innerOff, from)
    ensures var q := Translate(p, addrOff, innerOff, from, to).packet;
            && (p[IP_PROTO_OFF] != IPPROTO_TCP && p[IP_PROTO_OFF] != IPPROTO_UDP && !EmbedsHere(p, innerOff, from) ==>
                  q[L4_OFF..] == p[L4_OFF..])
            && (EmbedsHere(p, innerOff, from) ==>
                  && AddrAt(q, innerOff) == to
                  && WordAt(q, INNER_IP_CSUM_OFF) == Updated(WordAt(p, INNER_IP_CSUM_OFF), from, to, false)
                  && WordAt(q, ICMP_CSUM_OFF) == Updated(WordAt(p, ICMP_CSUM_OFF), from, to, false))
  {
    hide TranslateOuter, Updated, Patch;
    var q := TranslateOuter(p, addrOff, from, to);
    assert q[IP_PROTO_OFF] == p[IP_PROTO_OFF];
    assert forall k :: L4_OFF <= k < |p| ==> q[k] == p[k];
    assert q[L4_OFF..] == p[L4_OFF..];
    if EmbedsHere(p, innerOff, from) {
      assert AddrAt(q, innerOff) == from;
      EmbeddedFields(q, innerOff, from, to);
    }
  }

  lemma {:induction false} EmbeddedFields(q: Packet, innerOff: nat, from: Addr, to: Addr)
    requires |q| >= MIN_ICMP_ERROR_LEN && (innerOff == INNER_IP_SRC_OFF || innerOff == INNER_IP_DST_OFF)
    ensures var r := TranslateEmbedded(q, innerOff, from, to);
            && AddrAt(r, innerOff) == to
            && WordAt(r, INNER_IP_CSUM_OFF) == Updated(WordAt(q, INNER_IP_CSUM_OFF), from, to, false)
            && WordAt(r, ICMP_CSUM_OFF) == Updated(WordAt(q, ICMP_CSUM_OFF), from, to, false)
  {
    hide Updated, Patch, PutAddr;
    var q1 := PutAddr(q, innerOff, to);
    var q2 := ReplaceChecksum(q1, INNER_IP_CSUM_OFF, from, to, false);
    assert WordAt(q1, INNER_IP_CSUM_OFF) == WordAt(q, INNER_IP_CSUM_OFF);
    assert WordAt(q2, ICMP_CSUM_OFF) == WordAt(q, ICMP_CSUM_OFF);
    assert AddrAt(q2, innerOff) == to;
  }

  // --- Whole classifiers ---

  /** What a packet the guest managed to send looked like, and what leaves. */
  lemma {:induction false} EgressGuards(p: Packet, host: Addr)
    requires IsIpv4(p)
    ensures var q := Egress(p, Some(host)).packet;
            Egress(p, Some(host)).verdict == Pipe ==>
            && |p| >= L4_OFF && AddrAt(p, IP_SRC_OFF) == GUEST_IP && AddrAt(p, IP_DST_OFF) != METADATA_IP
            && AddrAt(q, IP_SRC_OFF) == host && AddrAt(q, IP_DST_OFF) == AddrAt(p, IP_DST_OFF)
  {
    hide Fold, Sum16, Updated, Patch;
  }

  /** Only packets for the host address are rewritten, and those reach the guest's own address. */
  lemma {:induction false} IngressGuards(p: Packet, host: Addr)
    requires IsIpv4(p)
    ensures var q := Ingress(p, Some(host)).packet;
            Ingress(p, Some(host)).verdict == Pipe ==>
            && |p| >= L4_OFF && AddrAt(q, IP_SRC_OFF) == AddrAt(p, IP_SRC_OFF)
            && (AddrAt(p, IP_DST_OFF) == host ==> AddrAt(q, IP_DST_OFF) == GUEST_IP)
            && (AddrAt(p, IP_DST_OFF) != host ==> q == p)
  {
    hide Fold, Sum16, Updated, Patch;
  }

  /** Every checksum the guest's packet carries verifies after egress exactly when it did before. */
  lemma {:induction false} EgressKeepsChecksums(p: Packet, host: Addr)
    requires IsIpv4(p) && HasPlainHeader(p) && AddrAt(p, IP_SRC_OFF) == GUEST_IP && AddrAt(p, IP_DST_OFF) != METADATA_IP
    ensures var r := Egress(p, Some(host));
            var q := r.packet;
            && (HeaderVerifies(q) <==> HeaderVerifies(p))
            && (HasTcp(p) ==> r.verdict == Pipe && HasTcp(q) && (TcpVerifies(q) <==> TcpVerifies(p)))
            && (HasUdp(p) ==> r.verdict == Pipe && HasUdp(q) && (UdpVerifies(q) <==> UdpVerifies(p))
                              && (WordAt(q, UDP_CSUM_OFF) == 0 <==> WordAt(p, UDP_CSUM_OFF) == 0))
            && forall k :: 0 <= k < |p| && !Touched(p, IP_SRC_OFF, INNER_IP_DST_OFF, k) ==> q[k] == p[k]
  {
    hide Translate, HeaderVerifies, HasTcp, TcpVerifies, HasUdp, UdpVerifies;
    TranslateKeepsHeaderChecksum(p, IP_SRC_OFF, INNER_IP_DST_OFF, GUEST_IP, host);
    TranslateFrame(p, IP_SRC_OFF, INNER_IP_DST_OFF, GUEST_IP, host);
    if HasTcp(p) {
      TranslateKeepsTcpChecksum(p, IP_SRC_OFF, INNER_IP_DST_OFF, GUEST_IP, host);
    }
    if HasUdp(p) {
      TranslateKeepsUdpChecksum(p, IP_SRC_OFF, INNER_IP_DST_OFF, GUEST_IP, host);
    }
  }

  /** The same for packets addressed to the guest's host address. */
  lemma {:induction false} IngressKeepsChecksums(p: Packet, host: Addr)
    requires IsIpv4(p) && HasPlainHeader(p) && AddrAt(p, IP_DST_OFF) == host
    ensures var r := Ingress(p, Some(host));
            var q := r.packet;
            && (HeaderVerifies(q) <==> HeaderVerifies(p))
            && (HasTcp(p) ==> r.verdict == Pipe && HasTcp(q) && (TcpVerifies(q) <==> TcpVerifies(p)))
            && (HasUdp(p) ==> r.verdict == Pipe && HasUdp(q) && (UdpVerifies(q) <==> UdpVerifies(p))
                              && (WordAt(q, UDP_CSUM_OFF) == 0 <==> WordAt(p, UDP_CSUM_OFF) == 0))
            && forall k :: 0 <= k < |p| && !Touched(p, IP_DST_OFF, INNER_IP_SRC_OFF, k) ==> q[k] == p[k]
  {
    hide Translate, HeaderVerifies, HasTcp, TcpVerifies, HasUdp, UdpVerifies;
    TranslateKeepsHeaderChecksum(p, IP_DST_OFF, INNER_IP_SRC_OFF, host, GUEST_IP);
    TranslateFrame(p, IP_DST_OFF, INNER_IP_SRC_OFF, host, GUEST_IP);
    if HasTcp(p) {
      TranslateKeepsTcpChecksum(p, IP_DST_OFF, INNER_IP_SRC_OFF, host, GUEST_IP);
    }
    if HasUdp(p) {
      TranslateKeepsUdpChecksum(p, IP_DST_OFF, INNER_IP_SRC_OFF, host, GUEST_IP);
    }
  }

  // --- Round trip ---

  /** The reply's view of a packet: source and destination exchanged. */
  function SwapEnds(p: Packet): (r: Packet)
    requires |p| >= L4_OFF
    ensures |r| == |p|
    ensures AddrAt(r, IP_SRC_OFF) == AddrAt(p, IP_DST_OFF) && AddrAt(r, IP_DST_OFF) == AddrAt(p, IP_SRC_OFF)
    ensures forall k :: 0 <= k < |p| && !(IP_SRC_OFF <= k < L4_OFF) ==> r[k] == p[k]
  {
    PutAddr(PutAddr(p, IP_SRC_OFF, AddrAt(p, IP_DST_OFF)), IP_DST_OFF, AddrAt(p, IP_SRC_OFF))
  }

  /** One of the two encodings of a zero one's-complement sum. */
  function Canonical(hc: word): word {
    if hc == MAX16 then 0 else hc
  }

  function WithCanonicalChecksums(p: Packet): (r: Packet)
    requires |p| >= L4_OFF && (p[IP_PROTO_OFF] == IPPROTO_TCP ==> |p| >= TCP_CSUM_OFF + 2)
    ensures |r| == |p|
  {
    var q := Patch(p, IP_CSUM_OFF, Canonical(WordAt(p, IP_CSUM_OFF)));
    if p[IP_PROTO_OFF] == IPPROTO_TCP then Patch(q, TCP_CSUM_OFF, Canonical(WordAt(p, TCP_CSUM_OFF))) else q
  }

  /** Long enough for its protocol's checksum, and no ICMP error with an embedded header. */
  predicate NothingEmbedded(p: Packet)
    requires |p| >= L4_OFF
  {
    && (p[IP_PROTO_OFF] == IPPROTO_TCP ==> |p| >= TCP_CSUM_OFF + 2)
    && (p[IP_PROTO_OFF] == IPPROTO_UDP ==> |p| >= UDP_CSUM_OFF + 2)
    && (p[IP_PROTO_OFF] == IPPROTO_ICMP ==> |p| > L4_OFF && !CarriesEmbeddedHeader(p))
  }

  /** Offset of the transport checksum, or of the IP checksum when there is none to update. */
  function L4Field(p: Packet): nat
    requires |p| >= L4_OFF
  {
    if p[IP_PROTO_OFF] == IPPROTO_TCP then TCP_CSUM_OFF
    else if p[IP_PROTO_OFF] == IPPROTO_UDP then UDP_CSUM_OFF
    else IP_CSUM_OFF
  }

  function UpdatedField(protocol: byte, hc: word, from: Addr, to: Addr): word {
    if protocol == IPPROTO_UDP && hc == 0 then 0 else Updated(hc, from, to, protocol == IPPROTO_UDP)
  }

  /** Field by field, what a translation without embedded header produces. */
  ghost predicate TranslatesTo(p: Packet, addrOff: nat, from: Addr, to: Addr, q: Packet)
    requires |p| >= L4_OFF && IP_SRC_OFF <= addrOff <= IP_DST_OFF
  {
    var f := L4Field(p);
    && |q| == |p| && f + 2 <= |p| && AddrAt(q, addrOff) == to
    && WordAt(q, IP_CSUM_OFF) == Updated(WordAt(p, IP_CSUM_OFF), from, to, false)
    && (f != IP_CSUM_OFF ==> WordAt(q, f) == UpdatedField(p[IP_PROTO_OFF], WordAt(p, f), from, to))
    && forall k :: 0 <= k < |p| && !(addrOff <= k < addrOff + 4) ==>
         k in {IP_CSUM_OFF, IP_CSUM_OFF + 1, f, f + 1} || q[k] == p[k]
  }

  lemma {:induction false} PlainTranslation(p: Packet, addrOff: nat, innerOff: nat, from: Addr, to: Addr)
    requires |p| >= L4_OFF && (addrOff == IP_SRC_OFF || addrOff == IP_DST_OFF) && innerOff + 4 <= MIN_ICMP_ERROR_LEN
    requires NothingEmbedded(p)
    ensures Translate(p, addrOff, innerOff, from, to).verdict == Pipe
    ensures TranslatesTo(p, addrOff, from, to, Translate(p, addrOff, innerOff, from, to).packet)
  {
    hide Updated, Patch;
    assert WordAt(PutAddr(p, addrOff, to), IP_CSUM_OFF) == WordAt(p, IP_CSUM_OFF);
  }

  /** Equal words are equal bytes. */
  lemma SameWord(p: Packet, q: Packet, i: nat)
    requires i + 2 <= |p| && i + 2 <= |q| && WordAt(p, i) == WordAt(q, i)
    ensures p[i] == q[i] && p[i + 1] == q[i + 1]
  {
  }

  /**
   * A packet sent out, answered by exchanging its ends, and brought back in equals the
   * exchanged original; checksums come back bit for bit, except that an IP or TCP
   * checksum of 0xFFFF comes back as 0x0000.
   */
  lemma {:induction false} RoundTrip(p: Packet, host: Addr)
    requires IsIpv4(p) && |p| >= L4_OFF && NothingEmbedded(p)
    requires AddrAt(p, IP_SRC_OFF) == GUEST_IP && AddrAt(p, IP_DST_OFF) != METADATA_IP
    ensures Egress(p, Some(host)).verdict == Pipe
    ensures Ingress(SwapEnds(Egress(p, Some(host)).packet), Some(host))
         == Outcome(WithCanonicalChecksums(SwapEnds(p)), Pipe)
  {
    hide Updated, Patch;
    PlainTranslation(p, IP_SRC_OFF, INNER_IP_DST_OFF, GUEST_IP, host);
    var q := Egress(p, Some(host)).packet;
    var s := SwapEnds(q);
    assert s[IP_PROTO_OFF] == p[IP_PROTO_OFF] && NothingEmbedded(s);
    PlainTranslation(s, IP_DST_OFF, INNER_IP_SRC_OFF, host, GUEST_IP);
    var r := Ingress(s, Some(host)).packet;
    RoundTripFields(p, q, s, r, host);
  }

  lemma {:induction false} FieldTwice(protocol: byte, hc: word, host: Addr)
    requires protocol == IPPROTO_TCP || protocol == IPPROTO_UDP
    ensures UpdatedField(protocol, UpdatedField(protocol, hc, GUEST_IP, host), host, GUEST_IP)
         == if protocol == IPPROTO_TCP then Canonical(hc) else hc
  {
    hide Updated;
    if protocol == IPPROTO_TCP || hc != 0 {
      UpdatedTwice(hc, GUEST_IP, host, protocol == IPPROTO_UDP);
      UpdatedResidue(hc, GUEST_IP, host, protocol == IPPROTO_UDP);
    }
  }

  lemma {:induction false} RoundTripFields(p: Packet, q: Packet, s: Packet, r: Packet, host: Addr)
    requires |p| >= L4_OFF && AddrAt(p, IP_SRC_OFF) == GUEST_IP
    requires TranslatesTo(p, IP_SRC_OFF, GUEST_IP, host, q) && s == SwapEnds(q)
    requires TranslatesTo(s, IP_DST_OFF, host, GUEST_IP, r)
    ensures r == WithCanonicalChecksums(SwapEnds(p))
  {
    hide Updated, UpdatedField, Patch, SwapEnds;
    var f, protocol := L4Field(p), p[IP_PROTO_OFF];
    assert L4Field(s) == f && s[IP_PROTO_OFF] == protocol;
    var e := WithCanonicalChecksums(SwapEnds(p));
    assert WordAt(s, IP_CSUM_OFF) == WordAt(q, IP_CSUM_OFF);
    UpdatedTwice(WordAt(p, IP_CSUM_OFF), GUEST_IP, host, false);
    SameWord(r, e, IP_CSUM_OFF);
    assert AddrAt(r, IP_SRC_OFF) == AddrAt(s, IP_SRC_OFF) == AddrAt(q, IP_DST_OFF) == AddrAt(p, IP_DST_OFF);
    assert AddrAt(e, IP_SRC_OFF) == AddrAt(p, IP_DST_OFF) && AddrAt(e, IP_DST_OFF) == GUEST_IP;
    SameWord(r, e, 26);
    SameWord(r, e, 28);
    SameWord(r, e, 30);
    SameWord(r, e, 32);
    if f != IP_CSUM_OFF {
      assert WordAt(s, f) == WordAt(q, f);
      FieldTwice(protocol, WordAt(p, f), host);
      assert WordAt(SwapEnds(p), f) == WordAt(p, f);
      SameWord(r, e, f);
    }
    assert forall k :: 0 <= k < |p| ==> r[k] == e[k];
  }
}
