/**
 * IP addresses, network prefixes and the mask arithmetic on them
 * (core/transport/src/wireguard.rs). Machine words are written out as their
 * bits, most significant first, with shift and conjunction defined on them.
 */
module Prefixes {

  // --- Words ----------------------------------------------------------------

  type Word = seq<bool>
  type Word32 = w: Word | |w| == 32 witness seq(32, _ => false)
  type Word128 = w: Word | |w| == 128 witness seq(128, _ => false)

  function Fill(width: nat, bit: bool): (w: Word)
    ensures |w| == width && forall i :: 0 <= i < width ==> w[i] == bit
  {
    seq(width, _ => bit)
  }

  function And(x: Word, y: Word): (w: Word)
    requires |x| == |y|
    ensures |w| == |x| && forall i :: 0 <= i < |x| ==> w[i] == (x[i] && y[i])
  {
    seq(|x|, i requires 0 <= i < |x| => x[i] && y[i])
  }

  /** Shifting left by the whole width or more is not defined. */
  function ShiftLeft(x: Word, count: nat): (w: Word)
    requires count < |x|
    ensures |w| == |x|
  {
    x[count..] + Fill(count, false)
  }

  // --- Addresses and prefixes -----------------------------------------------

  type Length = n: int | 0 <= n < 256

  datatype IpAddr = V4(v4: Word32) | V6(v6: Word128) {
    function Bits(): (w: Word)
      ensures |w| == Width()
    {
      match this
      case V4(bits) => bits
      case V6(bits) => bits
    }

    function Width(): (w: Length) {
      if V4? then 32 else 128
    }

    predicate IsUnspecified() {
      forall b :: b in Bits() ==> !b
    }

    /** 224.0.0.0/4 and ff00::/8. */
    predicate IsMulticast() {
      match this
      case V4(bits) => bits[..4] == [true, true, true, false]
      case V6(bits) => bits[..8] == Fill(8, true)
    }
  }

  datatype AllowedIp = AllowedIp(network: IpAddr, length: Length)

  datatype TunnelAddress = TunnelAddress(address: IpAddr, length: Length)

  /** All ones, shifted left so that `length` of them remain. */
  function Mask(width: nat, length: Length): (w: Word)
    requires 0 < length <= width
    ensures |w| == width
  {
    ShiftLeft(Fill(width, true), width - length)
  }

  predicate ValidNetwork(p: AllowedIp) {
    if p.length > p.network.Width() || p.network.IsMulticast() then false
    else
      var width, bits := p.network.Width(), p.network.Bits();
      var mask := if p.length == 0 then Fill(width, false) else Mask(width, p.length);
      And(bits, mask) == bits
  }

  /** Lengths for which the shifts below are defined. */
  predicate Shiftable(p: AllowedIp) {
    0 < p.length <= p.network.Width()
  }

  predicate SameFamily(a: IpAddr, b: IpAddr) {
    a.V4? == b.V4?
  }

  /** Two networks agree under the mask of the shorter prefix. */
  predicate NetworksOverlap(left: AllowedIp, right: AllowedIp)
    requires Shiftable(left) && Shiftable(right)
  {
    SameFamily(left.network, right.network) &&
    var shorter := if left.length <= right.length then left.length else right.length;
    var mask := Mask(left.network.Width(), shorter);
    And(left.network.Bits(), mask) == And(right.network.Bits(), mask)
  }

  predicate NetworkMatchesAddress(network: AllowedIp, address: TunnelAddress)
    requires Shiftable(network)
  {
    network.length == address.length && SameFamily(network.network, address.address) &&
    var mask := Mask(network.network.Width(), network.length);
    And(network.network.Bits(), mask) == And(address.address.Bits(), mask)
  }

  // --- Prefixes as sets of addresses ----------------------------------------

  /** An address lies in a prefix when it starts with the prefix's leading bits. */
  ghost predicate Contains(p: AllowedIp, a: IpAddr)
    requires p.length <= p.network.Width()
  {
    SameFamily(p.network, a) && p.network.Bits()[..p.length] == a.Bits()[..p.length]
  }

  /** A mask keeps exactly the first bits. */
  lemma MaskBits(width: nat, length: Length)
    requires 0 < length <= width
    ensures forall i :: 0 <= i < width ==> Mask(width, length)[i] == (i < length)
  {
  }

  /** Equality under a mask is agreement on the leading bits. */
  lemma MaskedEqual(x: Word, y: Word, length: Length)
    requires |x| == |y| && 0 < length <= |x|
    ensures And(x, Mask(|x|, length)) == And(y, Mask(|x|, length)) <==> x[..length] == y[..length]
  {
  }

  /** A valid network is written with zeros after its leading bits. */
  lemma ValidNetworkIsCanonical(p: AllowedIp)
    requires p.length <= p.network.Width() && !p.network.IsMulticast()
    ensures ValidNetwork(p) <==> forall i :: p.length <= i < p.network.Width() ==> !p.network.Bits()[i]
  {
  }

  ghost predicate Shared(left: AllowedIp, right: AllowedIp, a: IpAddr)
    requires Shiftable(left) && Shiftable(right)
  {
    Contains(left, a) && Contains(right, a)
  }

  /** The overlap test holds exactly when some address lies in both prefixes. */
  lemma OverlapExact(left: AllowedIp, right: AllowedIp)
    requires Shiftable(left) && Shiftable(right)
    ensures NetworksOverlap(left, right) <==> exists a :: Shared(left, right, a)
  {
    if SameFamily(left.network, right.network) {
      var l, r := left.network.Bits(), right.network.Bits();
      var k := if left.length <= right.length then left.length else right.length;
      MaskedEqual(l, r, k);
      if l[..k] == r[..k] {
        assert Shared(left, right, if left.length <= right.length then right.network else left.network);
      }
      forall a | Shared(left, right, a) ensures l[..k] == r[..k] {
        assert l[..k] == l[..left.length][..k] == a.Bits()[..left.length][..k] == a.Bits()[..k];
        assert r[..k] == r[..right.length][..k] == a.Bits()[..right.length][..k] == a.Bits()[..k];
      }
    }
  }

  /** The match test holds exactly when the address lies in the network, with the network's length. */
  lemma MatchExact(network: AllowedIp, address: TunnelAddress)
    requires Shiftable(network)
    ensures NetworkMatchesAddress(network, address) <==>
            network.length == address.length && Contains(network, address.address)
  {
  }
}
