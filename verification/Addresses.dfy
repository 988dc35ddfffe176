/** netip addresses as the collectors order them. */
module Addresses {
  import opened Text
  import opened Model

  /** Width, value and zone: what netip.Addr.Compare looks at, in this order. */
  function Rank(a: Address): (nat, nat, string)
  {
    match a
    case NoAddress => (0, 0, "")
    case V4(bits) => (1, bits, "")
    case V6(bits, zone) => (2, bits, zone)
  }

  /** Compare below zero. */
  predicate AddressLess(a: Address, b: Address)
  {
    var x, y := Rank(a), Rank(b);
    x.0 < y.0 || (x.0 == y.0 && (x.1 < y.1 || (x.1 == y.1 && Less(x.2, y.2))))
  }

  lemma AddressOrder(a: Address, b: Address, c: Address)
    ensures !AddressLess(a, a)
    ensures AddressLess(a, b) && AddressLess(b, c) ==> AddressLess(a, c)
    ensures a == b || AddressLess(a, b) || AddressLess(b, a)
    ensures !(AddressLess(a, b) && AddressLess(b, a))
  {
    var x, y, z := Rank(a).2, Rank(b).2, Rank(c).2;
    LessIrreflexive(x);
    LessTrichotomy(x, y);
    if Less(x, y) {
      LessAsymmetric(x, y);
      if Less(y, z) {
        LessTransitive(x, y, z);
      }
    }
  }
}
