/**
 * The stateless NAT classifiers (control-plane/microvisor-ebpf/src/main.rs): Ethernet II
 * plus IPv4 without options, edited in place. Checksum helpers follow equation 3 in
 * section 3 of RFC 1624; `BPF_F_MARK_MANGLED_0` stores 0xFFFF instead of zero.
 */
module PacketNat {
  import opened Basics
  import opened OnesComplement

  type Packet = seq<byte>

  const ETH_PROTO_OFF: nat := 12
  const IP_OFF: nat := 14
  const IP_PROTO_OFF: nat := 23
  const IP_CSUM_OFF: nat := 24
  const IP_SRC_OFF: nat := 26
  const IP_DST_OFF: nat := 30
  const L4_OFF: nat := 34
  const TCP_CSUM_OFF: nat := 50
  const UDP_CSUM_OFF: nat := 40
  const ICMP_CSUM_OFF: nat := 36
  const INNER_IP_OFF: nat := 42
  const INNER_IP_CSUM_OFF: nat := 52
  const INNER_IP_SRC_OFF: nat := 54
  const INNER_IP_DST_OFF: nat := 58
  const MIN_ICMP_ERROR_LEN: nat := 62

  const ETH_P_IP: word := 0x0800
  const IPPROTO_ICMP: byte := 1
  const IPPROTO_TCP: byte := 6
  const IPPROTO_UDP: byte := 17
  const ICMP_DEST_UNREACH: byte := 3
  const ICMP_TIME_EXCEEDED: byte := 11

  /** An IPv4 address as its two network-order words. */
  datatype Addr = Addr(hi: word, lo: word) {
    function Sum(): nat {
      hi + lo
    }
  }

  /** 169.254.1.2, the fixed guest address. */
  const GUEST_IP := Addr(0xA9FE, 0x0102)
  /** 169.254.169.254, the cloud metadata endpoint. */
  const METADATA_IP := Addr(0xA9FE, 0xA9FE)

  datatype Verdict = Pipe | Shot

  datatype Outcome = Outcome(packet: Packet, verdict: Verdict)

  function AddrAt(p: Packet, off: nat): Addr
    requires off + 4 <= |p|
  {
    Addr(WordAt(p, off), WordAt(p, off + 2))
  }

  function PutAddr(p: Packet, off: nat, a: Addr): (r: Packet)
    requires off + 4 <= |p|
    ensures |r| == |p| && AddrAt(r, off) == a
    ensures forall k :: 0 <= k < |p| && !(off <= k < off + 4) ==> r[k] == p[k]
  {
    Patch(Patch(p, off, a.hi), off + 2, a.lo)
  }

  function Complement(w: word): word {
    MAX16 - w
  }

  /** Checksum `hc` after a covered address changes from `from` to `to`. */
  function Updated(hc: word, from: Addr, to: Addr, mangleZero: bool): word {
    var sum := Complement(hc) + Complement(from.hi) + Complement(from.lo) + to.hi + to.lo;
    var hc' := Complement(Fold(sum));
    if mangleZero && hc' == 0 then MAX16 else hc'
  }

  function ReplaceChecksum(p: Packet, off: nat, from: Addr, to: Addr, mangleZero: bool): (r: Packet)
    requires off + 2 <= |p|
    ensures |r| == |p|
    ensures forall k :: 0 <= k < |p| && k != off && k != off + 1 ==> r[k] == p[k]
  {
    Patch(p, off, Updated(WordAt(p, off), from, to, mangleZero))
  }

  predicate CarriesEmbeddedHeader(p: Packet)
    requires |p| > L4_OFF
  {
    (p[L4_OFF] == ICMP_DEST_UNREACH || p[L4_OFF] == ICMP_TIME_EXCEEDED) && |p| >= MIN_ICMP_ERROR_LEN
  }

  /** Address and header checksum of the outer IP header. */
  function TranslateOuter(p: Packet, addrOff: nat, from: Addr, to: Addr): (r: Packet)
    requires |p| >= L4_OFF && IP_SRC_OFF <= addrOff && addrOff + 4 <= |p|
    ensures |r| == |p| && AddrAt(r, addrOff) == to
    ensures forall k :: 0 <= k < |p| && !(addrOff <= k < addrOff + 4) ==>
              k == IP_CSUM_OFF || k == IP_CSUM_OFF + 1 || r[k] == p[k]
  {
    ReplaceChecksum(PutAddr(p, addrOff, to), IP_CSUM_OFF, from, to, false)
  }

  /** Embedded header of an ICMP error: its address, its checksum, then the ICMP checksum. */
  function TranslateEmbedded(p: Packet, innerOff: nat, from: Addr, to: Addr): (r: Packet)
    requires |p| >= MIN_ICMP_ERROR_LEN && innerOff + 4 <= |p|
    ensures |r| == |p|
    ensures forall k :: 0 <= k < |p| && !(innerOff <= k < innerOff + 4) ==>
              || INNER_IP_CSUM_OFF <= k < INNER_IP_CSUM_OFF + 2 || ICMP_CSUM_OFF <= k < ICMP_CSUM_OFF + 2
              || r[k] == p[k]
  {
    ReplaceChecksum(
      ReplaceChecksum(PutAddr(p, innerOff, to), INNER_IP_CSUM_OFF, from, to, false),
      ICMP_CSUM_OFF, from, to, false)
  }

  /**
   * The common tail of both classifiers: `from` at `addrOff` becomes `to`. A failed load
   * or helper call drops the packet, whatever has been written by then.
   */
  function Translate(p: Packet, addrOff: nat, innerOff: nat, from: Addr, to: Addr): (r: Outcome)
    requires |p| >= L4_OFF && IP_SRC_OFF <= addrOff <= IP_DST_OFF && innerOff + 4 <= MIN_ICMP_ERROR_LEN
    ensures |r.packet| == |p|
  {
    var q := TranslateOuter(p, addrOff, from, to);
    var protocol := p[IP_PROTO_OFF];
    if protocol == IPPROTO_TCP then
      if |q| < TCP_CSUM_OFF + 2 then Outcome(q, Shot)
      else Outcome(ReplaceChecksum(q, TCP_CSUM_OFF, from, to, false), Pipe)
    else if protocol == IPPROTO_UDP then
      if |q| < UDP_CSUM_OFF + 2 then Outcome(q, Shot)
      else if WordAt(q, UDP_CSUM_OFF) == 0 then Outcome(q, Pipe)
      else Outcome(ReplaceChecksum(q, UDP_CSUM_OFF, from, to, true), Pipe)
    else if protocol == IPPROTO_ICMP then
      if |q| <= L4_OFF then Outcome(q, Shot)
      else if CarriesEmbeddedHeader(q) && AddrAt(q, innerOff) == from then
        Outcome(TranslateEmbedded(q, innerOff, from, to), Pipe)
      else Outcome(q, Pipe)
    else Outcome(q, Pipe)
  }

  predicate IsIpv4(p: Packet) {
    |p| >= ETH_PROTO_OFF + 2 && WordAt(p, ETH_PROTO_OFF) == ETH_P_IP
  }

  /** Packets leaving the guest; `hostIp` is the VM_CONFIG entry. */
  function Egress(p: Packet, hostIp: Option<Addr>): (r: Outcome)
    ensures |r.packet| == |p|
  {
    if |p| < ETH_PROTO_OFF + 2 then Outcome(p, Shot)
    else if !IsIpv4(p) then Outcome(p, Pipe)
    else if |p| < L4_OFF then Outcome(p, Shot)
    else if AddrAt(p, IP_DST_OFF) == METADATA_IP then Outcome(p, Shot)
    else if AddrAt(p, IP_SRC_OFF) != GUEST_IP then Outcome(p, Shot)
    else if hostIp.None? then Outcome(p, Shot)
    else Translate(p, IP_SRC_OFF, INNER_IP_DST_OFF, AddrAt(p, IP_SRC_OFF), hostIp.value)
  }

  /** Packets arriving for the guest. */
  function Ingress(p: Packet, hostIp: Option<Addr>): (r: Outcome)
    ensures |r.packet| == |p|
  {
    if |p| < ETH_PROTO_OFF + 2 then Outcome(p, Shot)
    else if !IsIpv4(p) then Outcome(p, Pipe)
    else if |p| < IP_DST_OFF + 4 then Outcome(p, Shot)
    else if hostIp.None? then Outcome(p, Shot)
    else if AddrAt(p, IP_DST_OFF) != hostIp.value then Outcome(p, Pipe)
    else Translate(p, IP_DST_OFF, INNER_IP_SRC_OFF, AddrAt(p, IP_DST_OFF), GUEST_IP)
  }

  // --- The classifiers on the packet buffer itself ---

  method LoadWord(p: array<byte>, off: nat) returns (w: Option<word>)
    ensures w == if off + 2 <= p.Length then Some(WordAt(p[..], off)) else None
  {
    if off + 2 > p.Length {
      return None;
    }
    var hi: int, lo: int := p[off], p[off + 1];
    return Some(256 * hi + lo);
  }

  method LoadAddr(p: array<byte>, off: nat) returns (a: Option<Addr>)
    ensures a == if off + 4 <= p.Length then Some(AddrAt(p[..], off)) else None
  {
    if off + 4 > p.Length {
      return None;
    }
    var hi := LoadWord(p, off);
    var lo := LoadWord(p, off + 2);
    return Some(Addr(hi.value, lo.value));
  }

  method StoreWord(p: array<byte>, off: nat, w: word)
    requires off + 2 <= p.Length
    modifies p
    ensures p[..] == Patch(old(p[..]), off, w)
  {
    p[off] := w / 256;
    p[off + 1] := w % 256;
  }

  method StoreAddr(p: array<byte>, off: nat, a: Addr) returns (ok: bool)
    modifies p
    ensures ok == (off + 4 <= p.Length)
    ensures p[..] == if ok then PutAddr(old(p[..]), off, a) else old(p[..])
  {
    if off + 4 > p.Length {
      return false;
    }
    StoreWord(p, off, a.hi);
    StoreWord(p, off + 2, a.lo);
    return true;
  }

  /** `l3_csum_replace` and `l4_csum_replace` for a four-byte field. */
  method CsumReplace(p: array<byte>, off: nat, from: Addr, to: Addr, mangleZero: bool) returns (ok: bool)
    modifies p
    ensures ok == (off + 2 <= p.Length)
    ensures p[..] == if ok then ReplaceChecksum(old(p[..]), off, from, to, mangleZero) else old(p[..])
  {
    var hc := LoadWord(p, off);
    if hc.None? {
      return false;
    }
    StoreWord(p, off, Updated(hc.value, from, to, mangleZero));
    return true;
  }

  method TranslateInPlace(p: array<byte>, addrOff: nat, innerOff: nat, from: Addr, to: Addr) returns (verdict: Verdict)
    requires p.Length >= L4_OFF && IP_SRC_OFF <= addrOff <= IP_DST_OFF && innerOff + 4 <= MIN_ICMP_ERROR_LEN
    modifies p
    ensures Outcome(p[..], verdict) == Translate(old(p[..]), addrOff, innerOff, from, to)
  {
    var protocol := p[IP_PROTO_OFF];
    var ok := StoreAddr(p, addrOff, to);
    ok := CsumReplace(p, IP_CSUM_OFF, from, to, false);
    assert p[..] == TranslateOuter(old(p[..]), addrOff, from, to);
    if protocol == IPPROTO_TCP {
      ok := CsumReplace(p, TCP_CSUM_OFF, from, to, false);
      return if ok then Pipe else Shot;
    } else if protocol == IPPROTO_UDP {
      var csum := LoadWord(p, UDP_CSUM_OFF);
      if csum.None? {
        return Shot;
      }
      if csum.value != 0 {
        ok := CsumReplace(p, UDP_CSUM_OFF, from, to, true);
      }
      return Pipe;
    } else if protocol == IPPROTO_ICMP {
      verdict := TranslateIcmpInPlace(p, innerOff, from, to);
    } else {
      return Pipe;
    }
  }

  method TranslateIcmpInPlace(p: array<byte>, innerOff: nat, from: Addr, to: Addr) returns (verdict: Verdict)
    requires p.Length >= L4_OFF && innerOff + 4 <= MIN_ICMP_ERROR_LEN
    modifies p
    ensures verdict == if p.Length <= L4_OFF then Shot else Pipe
    ensures var q := old(p[..]);
            p[..] == if |q| > L4_OFF && CarriesEmbeddedHeader(q) && AddrAt(q, innerOff) == from
                     then TranslateEmbedded(q, innerOff, from, to) else q
  {
    if p.Length <= L4_OFF {
      return Shot;
    }
    var icmpType := p[L4_OFF];
    if (icmpType == ICMP_DEST_UNREACH || icmpType == ICMP_TIME_EXCEEDED) && p.Length >= MIN_ICMP_ERROR_LEN {
      var inner := LoadAddr(p, innerOff);
      if inner.value == from {
        var ok := StoreAddr(p, innerOff, to);
        ok := CsumReplace(p, INNER_IP_CSUM_OFF, from, to, false);
        ok := CsumReplace(p, ICMP_CSUM_OFF, from, to, false);
      }
    }
    return Pipe;
  }

  method TcEgress(p: array<byte>, hostIp: Option<Addr>) returns (verdict: Verdict)
    modifies p
    ensures Outcome(p[..], verdict) == Egress(old(p[..]), hostIp)
  {
    var etherType := LoadWord(p, ETH_PROTO_OFF);
    if etherType.None? {
      return Shot;
    }
    if etherType.value != ETH_P_IP {
      return Pipe;
    }
    var src := LoadAddr(p, IP_SRC_OFF);
    var dst := LoadAddr(p, IP_DST_OFF);
    if src.None? || dst.None? || dst.value == METADATA_IP || src.value != GUEST_IP || hostIp.None? {
      return Shot;
    }
    verdict := TranslateInPlace(p, IP_SRC_OFF, INNER_IP_DST_OFF, src.value, hostIp.value);
  }

  method TcIngress(p: array<byte>, hostIp: Option<Addr>) returns (verdict: Verdict)
    modifies p
    ensures Outcome(p[..], verdict) == Ingress(old(p[..]), hostIp)
  {
    var etherType := LoadWord(p, ETH_PROTO_OFF);
    if etherType.None? {
      return Shot;
    }
    if etherType.value != ETH_P_IP {
      return Pipe;
    }
    var dst := LoadAddr(p, IP_DST_OFF);
    if dst.None? || hostIp.None? {
      return Shot;
    }
    if dst.value != hostIp.value {
      return Pipe;
    }
    verdict := TranslateInPlace(p, IP_DST_OFF, INNER_IP_SRC_OFF, dst.value, GUEST_IP);
  }
}
