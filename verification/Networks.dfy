/** IP networks, as the `ipaddress` module computes with them. */
module Networks {

  datatype Version = V4 | V6

  datatype Address = Address(version: Version, value: nat)

  /** A network as written: host bits may be set, and are masked off. */
  datatype Network = Network(version: Version, value: nat, prefix: nat)

  function Width(v: Version): (w: nat) {
    if v.V4? then 32 else 128
  }

  function Pow2(n: nat): (r: nat)
    ensures r > 0
  {
    if n == 0 then 1 else 2 * Pow2(n - 1)
  }

  /** How many addresses the prefix spans; a prefix longer than the width never parses. */
  function Size(n: Network): (s: nat)
    ensures s > 0
  {
    if n.prefix <= Width(n.version) then Pow2(Width(n.version) - n.prefix) else 1
  }

  /** `x` with the host bits cleared. */
  function Masked(x: nat, size: nat): (r: nat)
    requires size > 0
  {
    x / size * size
  }

  function First(n: Network): (r: nat) { Masked(n.value, Size(n)) }

  function Last(n: Network): (r: nat) { First(n) + Size(n) - 1 }

  /** Membership is decided by masking the address. */
  predicate Contains(n: Network, a: Address) {
    a.version == n.version && Masked(a.value, Size(n)) == First(n)
  }

  /** Inclusion is decided by the two end points. */
  predicate SubnetOf(child: Network, parent: Network) {
    child.version == parent.version && First(parent) <= First(child) && Last(child) <= Last(parent)
  }

  lemma MaskedBounds(x: nat, size: nat)
    requires size > 0
    ensures Masked(x, size) <= x < Masked(x, size) + size
  {
    assert x == x / size * size + x % size;
  }

  lemma {:induction false} NextBlock(a: nat, b: nat, size: nat)
    requires a < b
    ensures a * size + size <= b * size
    decreases b
  {
    if a + 1 < b { NextBlock(a, b - 1, size); }
    assert b * size == (b - 1) * size + size;
  }

  lemma MaskedUnique(x: nat, y: nat, size: nat)
    requires size > 0 && Masked(y, size) <= x < Masked(y, size) + size
    ensures Masked(x, size) == Masked(y, size)
  {
    MaskedBounds(x, size);
    var a, b := x / size, y / size;
    if a < b {
      NextBlock(a, b, size);
      assert false;
    }
    if b < a {
      NextBlock(b, a, size);
      assert false;
    }
  }

  /** The masked comparison and the end points agree. */
  lemma ContainsIffBetween(n: Network, a: Address)
    ensures Contains(n, a) <==> a.version == n.version && First(n) <= a.value <= Last(n)
  {
    MaskedBounds(a.value, Size(n));
    if First(n) <= a.value <= Last(n) {
      MaskedUnique(a.value, n.value, Size(n));
    }
  }

  // ----- the prefix, bit by bit -----

  function Quotient(x: nat, k: nat): (q: nat)
    requires k > 0
  {
    x / k
  }

  /** The number that the first `n` of `width` bits stand for. */
  function Leading(x: nat, width: nat, n: nat): (r: nat)
    requires n <= width
  {
    Quotient(x, Pow2(width - n))
  }

  /** Bit `i` of a value of `width` bits, the most significant first. */
  function BitAt(x: nat, width: nat, i: nat): (b: nat)
    requires i < width
  {
    Leading(x, width, i + 1) % 2
  }

  ghost predicate SameBits(x: nat, y: nat, width: nat, n: nat)
    requires n <= width
  {
    forall i :: 0 <= i < n ==> BitAt(x, width, i) == BitAt(y, width, i)
  }

  lemma DivIs(x: nat, d: nat, q: nat, r: nat)
    requires d > 0 && x == q * d + r && r < d
    ensures x / d == q
  {
    var p := x / d;
    assert x == p * d + x % d;
    if p < q { NextBlock(p, q, d); assert false; }
    if q < p { NextBlock(q, p, d); assert false; }
  }

  lemma Halve(x: nat, k: nat, h: nat, l: nat)
    requires k > 0 && x / k == 2 * h + l && l < 2
    ensures x / (2 * k) == h
  {
    var r := x % k;
    assert x == (2 * h + l) * k + r;
    assert (2 * h + l) * k == h * (2 * k) + l * k;
    assert 0 <= l * k <= k;
    DivIs(x, 2 * k, h, l * k + r);
  }

  lemma LeadingStep(x: nat, width: nat, n: nat)
    requires n < width
    ensures Leading(x, width, n + 1) == 2 * Leading(x, width, n) + BitAt(x, width, n)
  {
    var k := Pow2(width - (n + 1));
    var q := x / k;
    assert Pow2(width - n) == 2 * k;
    Halve(x, k, q / 2, q % 2);
  }

  lemma LeadingNothing(x: nat, width: nat)
    requires x < Pow2(width)
    ensures Leading(x, width, 0) == 0
  {
    DivIs(x, Pow2(width), 0, x);
  }

  lemma {:induction false} LeadingIffSameBits(x: nat, y: nat, width: nat, n: nat)
    requires n <= width && x < Pow2(width) && y < Pow2(width)
    ensures Leading(x, width, n) == Leading(y, width, n) <==> SameBits(x, y, width, n)
    decreases n
  {
    hide Pow2, Leading, BitAt;
    if n == 0 {
      LeadingNothing(x, width);
      LeadingNothing(y, width);
    } else {
      LeadingIffSameBits(x, y, width, n - 1);
      LeadingStep(x, width, n - 1);
      LeadingStep(y, width, n - 1);
      BitIsSmall(x, width, n - 1);
      BitIsSmall(y, width, n - 1);
    }
  }

  lemma BitIsSmall(x: nat, width: nat, i: nat)
    requires i < width
    ensures BitAt(x, width, i) < 2
  {
  }

  lemma MaskedSame(x: nat, y: nat, k: nat)
    requires k > 0
    ensures Masked(x, k) == Masked(y, k) <==> x / k == y / k
  {
    if x / k < y / k { NextBlock(x / k, y / k, k); }
    if y / k < x / k { NextBlock(y / k, x / k, k); }
  }

  /** The values an address can have: 32 bits, or 128. */
  predicate InRange(version: Version, value: nat) {
    value < Pow2(match version case V4 => 32 case V6 => 128)
  }

  /** An address is in a network exactly when it is of its version and the bits of the prefix agree. */
  lemma ContainsIffPrefix(n: Network, a: Address)
    requires InRange(n.version, n.value) && InRange(a.version, a.value)
    requires n.prefix <= (match n.version case V4 => 32 case V6 => 128)
    ensures Contains(n, a) <==>
            a.version == n.version && SameBits(a.value, n.value, match n.version case V4 => 32 case V6 => 128, n.prefix)
  {
    var width := Width(n.version);
    hide Pow2, SameBits;
    if a.version == n.version {
      LeadingIffSameBits(a.value, n.value, width, n.prefix);
      MaskedSame(a.value, n.value, Size(n));
    }
  }

  /** One network lies in another exactly when each of its addresses does. */
  lemma SubnetIffAllAddresses(child: Network, parent: Network)
    ensures SubnetOf(child, parent) <==> forall a :: Contains(child, a) ==> Contains(parent, a)
  {
    forall a ensures Contains(child, a) <==> a.version == child.version && First(child) <= a.value <= Last(child) {
      ContainsIffBetween(child, a);
    }
    forall a ensures Contains(parent, a) <==> a.version == parent.version && First(parent) <= a.value <= Last(parent) {
      ContainsIffBetween(parent, a);
    }
    if forall a :: Contains(child, a) ==> Contains(parent, a) {
      var lo, hi := Address(child.version, First(child)), Address(child.version, Last(child));
      assert Contains(child, lo) && Contains(child, hi);
    }
  }
}
