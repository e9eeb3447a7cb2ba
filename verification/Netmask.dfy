/** Netmasks and prefix lengths: the bit loops of IPy and what they decide. */
module Netmask {
  import opened Cidr

  /** The number of binary digits of n. */
  function BitLen(n: nat): nat {
    if n == 0 then 0 else 1 + BitLen(n / 2)
  }

  /** The number of zero bits below the lowest one bit; 0 for 0. */
  function LowZeros(n: nat): nat {
    if n == 0 || n % 2 == 1 then 0 else 1 + LowZeros(n / 2)
  }

  /** n is k ones followed by z zeros. */
  predicate OnesThenZeros(n: int, k: nat, z: nat) {
    n == (Pow2(k) - 1) * Pow2(z)
  }

  // ------------------------------------------------------------- arithmetic

  lemma {:induction false} BitLenBounds(n: nat)
    ensures n < Pow2(BitLen(n))
    ensures n > 0 ==> Pow2(BitLen(n) - 1) <= n
  {
    if n > 0 {
      BitLenBounds(n / 2);
    }
  }

  lemma {:induction false} BitLenUnique(n: nat, k: nat)
    requires n < Pow2(k) && (k > 0 ==> Pow2(k - 1) <= n)
    ensures BitLen(n) == k
  {
    if k > 0 {
      if k > 1 {
        assert Pow2(k - 1) == 2 * Pow2(k - 2);
      }
      BitLenUnique(n / 2, k - 1);
    }
  }

  /** A number of the given shape determines its shape, 0 aside. */
  lemma {:induction false} ShapeOf(n: nat, k: nat, z: nat)
    requires OnesThenZeros(n, k, z) && n > 0
    ensures k > 0 && LowZeros(n) == z && BitLen(n) == k + z
    decreases z
  {
    assert k > 0;
    assert Pow2(k) == 2 * Pow2(k - 1);
    if z == 0 {
      assert n == Pow2(k) - 1;
      BitLenUnique(n, k);
    } else {
      Halve(k, z);
      assert n / 2 == (Pow2(k) - 1) * Pow2(z - 1);
      ShapeOf(n / 2, k, z - 1);
    }
  }

  lemma {:induction false} Halve(k: nat, z: nat)
    requires z > 0
    ensures (Pow2(k) - 1) * Pow2(z) == 2 * ((Pow2(k) - 1) * Pow2(z - 1))
  {
  }

  lemma {:induction false} CancelFactor(a: int, b: int, s: nat)
    requires s > 0 && a * s == b * s
    ensures a == b
  {
    if a < b {
      MulMono(a + 1, b, s);
    } else if b < a {
      MulMono(b + 1, a, s);
    }
  }

  lemma {:induction false} BitLenAtMost(n: nat, k: nat)
    requires n < Pow2(k)
    ensures BitLen(n) <= k
    decreases k
  {
    if n > 0 {
      assert k > 0;
      BitLenAtMost(n / 2, k - 1);
    }
  }

  // ------------------------------------------------------------- the loops

  /** _count1Bits */
  method Count1Bits(n: int) returns (ret: nat)
    ensures ret == if n > 0 then BitLen(n) else 0
  {
    var num := n;
    ret := 0;
    while num > 0
      invariant n > 0 ==> num >= 0 && ret + BitLen(num) == BitLen(n)
      invariant n <= 0 ==> num == n && ret == 0
    {
      num := num / 2;
      ret := ret + 1;
    }
  }

  /** _count0Bits */
  method Count0Bits(n: int) returns (r: Result<nat>)
    ensures n < 0 ==> r == ValueError
    ensures n >= 0 ==> r == Ok(LowZeros(n))
  {
    if n < 0 {
      return ValueError;
    }
    var num := n;
    var ret := 0;
    while num > 0
      invariant num >= 0 && (n > 0 ==> num > 0)
      invariant ret + LowZeros(num) == LowZeros(n)
    {
      if num % 2 == 1 {
        break;
      }
      num := num / 2;
      ret := ret + 1;
    }
    return Ok(ret);
  }

  /** _checkNetmask, called with the number of binary digits of the mask. */
  method CheckNetmask(netmask: nat, masklen: nat) returns (ok: bool)
    requires masklen == BitLen(netmask)
    ensures ok <==> exists k: nat, z: nat :: OnesThenZeros(netmask, k, z)
  {
    var num := netmask;
    var bits := masklen;
    ghost var z := 0;
    // drop trailing zeros
    while num % 2 == 0 && bits != 0
      invariant num >= 0 && bits == BitLen(num)
      invariant netmask == num * Pow2(z)
    {
      DropZero(num, z);
      num := num / 2;
      bits := bits - 1;
      z := z + 1;
      if bits == 0 {
        break;
      }
    }
    ghost var odd, k := num, bits;
    ghost var ones := 0;
    // what is left must be ones all the way up
    while bits > 0
      invariant num >= 0 && bits == BitLen(num) && ones + bits == k
      invariant odd == num * Pow2(ones) + Pow2(ones) - 1
    {
      if num % 2 == 0 {
        MixedHasNoShape(netmask, odd, z, num, ones);
        return false;
      }
      DropOne(num, ones);
      num := num / 2;
      bits := bits - 1;
      ones := ones + 1;
    }
    assert OnesThenZeros(netmask, ones, z);
    return true;
  }

  lemma {:induction false} DropZero(num: nat, z: nat)
    requires num % 2 == 0
    ensures num * Pow2(z) == (num / 2) * Pow2(z + 1)
  {
    assert num == 2 * (num / 2);
    assert (2 * (num / 2)) * Pow2(z) == (num / 2) * (2 * Pow2(z));
  }

  lemma {:induction false} DropOne(num: nat, ones: nat)
    requires num % 2 == 1
    ensures num * Pow2(ones) + Pow2(ones) == (num / 2) * Pow2(ones + 1) + Pow2(ones + 1)
  {
    assert num == 2 * (num / 2) + 1;
    assert (2 * (num / 2) + 1) * Pow2(ones) == (num / 2) * (2 * Pow2(ones)) + Pow2(ones);
  }

  /** The shape of an odd number shifted left can only be that of the odd number. */
  lemma {:induction false} ShapeOfShifted(n: nat, odd: nat, z: nat, k: nat, y: nat)
    requires n == odd * Pow2(z) && odd % 2 == 1 && OnesThenZeros(n, k, y)
    ensures odd == Pow2(k) - 1
  {
    hide Pow2;
    MulMono(1, odd, Pow2(z));
    ShapeOf(n, k, y);
    LowZerosOf(odd, z);
    CancelFactor(Pow2(k) - 1, odd, Pow2(z));
  }

  /** Ones, then a zero bit below further ones: not the shape of a netmask. */
  lemma {:induction false} MixedHasNoShape(n: nat, odd: nat, z: nat, num: nat, ones: nat)
    requires n == odd * Pow2(z) && odd == num * Pow2(ones) + Pow2(ones) - 1
    requires num > 0 && num % 2 == 0 && odd % 2 == 1
    ensures !exists k: nat, y: nat :: OnesThenZeros(n, k, y)
  {
    hide Pow2;
    if k: nat, y: nat :| OnesThenZeros(n, k, y) {
      ShapeOfShifted(n, odd, z, k, y);
      NotAllOnes(k, num, ones);
    }
  }

  lemma {:induction false} LowZerosOf(odd: nat, z: nat)
    requires odd % 2 == 1
    ensures LowZeros(odd * Pow2(z)) == z
  {
    if z > 0 {
      LowZerosOf(odd, z - 1);
      assert odd * Pow2(z) == 2 * (odd * Pow2(z - 1));
      MulMono(1, odd, Pow2(z - 1));
    }
  }

  lemma {:induction false} NotAllOnes(k: nat, num: nat, ones: nat)
    requires num > 0 && num % 2 == 0
    ensures Pow2(k) - 1 != num * Pow2(ones) + Pow2(ones) - 1
    decreases ones
  {
    if ones == 0 {
    } else if k > 0 {
      NotAllOnes(k - 1, num, ones - 1);
      assert num * Pow2(ones) == 2 * (num * Pow2(ones - 1));
    } else {
      MulMono(1, Pow2(ones), num);
    }
  }

  /** _netmaskToPrefixlen: it accepts exactly the numbers written as k ones and z zeros
    * (wherever the ones stand in the word) and returns k. */
  method NetmaskToPrefixlen(netmask: int) returns (r: Result<int>)
    ensures r.Ok? <==> exists k: nat, z: nat :: OnesThenZeros(netmask, k, z)
    ensures r.Ok? ==> r.value >= 0 && forall k: nat, z: nat | OnesThenZeros(netmask, k, z) :: r.value == k
  {
    var netlen := Count0Bits(netmask);
    if netlen.ValueError? {
      forall k: nat, z: nat ensures !OnesThenZeros(netmask, k, z) {
        MulMono(0, Pow2(k) - 1, Pow2(z));
      }
      return ValueError;
    }
    var masklen := Count1Bits(netmask);
    var ok := CheckNetmask(netmask, masklen);
    if !ok {
      return ValueError;
    }
    forall k: nat, z: nat | OnesThenZeros(netmask, k, z) ensures masklen - netlen.value == k {
      if netmask > 0 {
        ShapeOf(netmask, k, z);
      } else if k > 0 {
        Pow2Less(0, k);
        MulMono(1, Pow2(k) - 1, Pow2(z));
      }
    }
    return Ok(masklen - netlen.value);
  }

  /** _prefixlenToNetmask; a negative shift count is an error as well. */
  function PrefixlenToNetmask(plen: int, v: Version): Result<nat> {
    if plen == 0 then Ok(0)
    else if plen < 0 || plen > Bits(v) then ValueError
    else
      MulMono(0, Pow2(plen) - 1, Pow2(Bits(v) - plen));
      Ok((Pow2(plen) - 1) * Pow2(Bits(v) - plen))
  }

  /** Reading back a netmask gives the prefix length it was made from. */
  method PrefixlenRoundTrip(plen: nat, v: Version) returns (r: Result<int>)
    requires plen <= Bits(v)
    ensures r == Ok(plen)
  {
    var mask := PrefixlenToNetmask(plen, v);
    assert OnesThenZeros(mask.value, plen, Bits(v) - plen);
    r := NetmaskToPrefixlen(mask.value);
  }

  // ------------------------------------------- which addresses fit a prefix

  /** The bitwise and of two numbers. */
  function BitAnd(a: nat, b: nat): nat {
    if a == 0 then 0
    else (if a % 2 == 1 && b % 2 == 1 then 1 else 0) + 2 * BitAnd(a / 2, b / 2)
  }

  /** _checkNetaddrWorksWithPrefixlen */
  predicate NetaddrWorks(net: nat, plen: int, v: Version) {
    var mask := PrefixlenToNetmask(plen, v);
    mask.Ok? && BitAnd(net, mask.value) == net
  }

  lemma {:induction false} AndOnes(net: nat, p: nat)
    ensures BitAnd(net, Pow2(p) - 1) <= net
    ensures BitAnd(net, Pow2(p) - 1) == net <==> net < Pow2(p)
    decreases p
  {
    if p == 0 {
      AndZero(net);
    } else if net > 0 {
      assert (Pow2(p) - 1) % 2 == 1 && (Pow2(p) - 1) / 2 == Pow2(p - 1) - 1;
      AndOnes(net / 2, p - 1);
    }
  }

  lemma {:induction false} AndZero(net: nat)
    ensures BitAnd(net, 0) == 0
  {
    if net > 0 {
      AndZero(net / 2);
    }
  }

  lemma {:induction false} AndHalve(net: nat, mask: nat)
    ensures BitAnd(net, 2 * mask) == 2 * BitAnd(net / 2, mask)
  {
    assert (2 * mask) % 2 == 0 && (2 * mask) / 2 == mask;
  }

  lemma {:induction false} AndMask(net: nat, p: nat, h: nat)
    ensures 0 <= (Pow2(p) - 1) * Pow2(h)
    ensures BitAnd(net, (Pow2(p) - 1) * Pow2(h)) <= net
    ensures BitAnd(net, (Pow2(p) - 1) * Pow2(h)) == net <==> net % Pow2(h) == 0 && net < Pow2(p) * Pow2(h)
    decreases h
  {
    MulMono(0, Pow2(p) - 1, Pow2(h));
    if h == 0 {
      assert Pow2(h) == 1;
      AndOnes(net, p);
    } else {
      AndMaskStep(net, p, h);
    }
  }

  lemma {:induction false} AndMaskStep(net: nat, p: nat, h: nat)
    requires h > 0
    ensures 0 <= (Pow2(p) - 1) * Pow2(h)
    ensures BitAnd(net, (Pow2(p) - 1) * Pow2(h)) <= net
    ensures BitAnd(net, (Pow2(p) - 1) * Pow2(h)) == net <==> net % Pow2(h) == 0 && net < Pow2(p) * Pow2(h)
    decreases h, 0
  {
    assert Pow2(h) == 2 * Pow2(h - 1);
    hide Pow2, BitAnd;
    AndMask(net / 2, p, h - 1);
    Halve(p, h);
    AndHalve(net, (Pow2(p) - 1) * Pow2(h - 1));
    HalveMod(net, Pow2(h - 1));
    HalveBound(net, Pow2(p), Pow2(h - 1));
  }

  lemma {:induction false} HalveBound(n: nat, a: nat, b: nat)
    ensures a * (2 * b) == 2 * (a * b)
    ensures n % 2 == 0 ==> (n < a * (2 * b) <==> n / 2 < a * b)
  {
    assert a * (2 * b) == 2 * (a * b);
  }

  lemma {:induction false} HalveMod(n: nat, d: nat)
    requires d > 0
    ensures n % (2 * d) == 0 <==> n % 2 == 0 && (n / 2) % d == 0
  {
    if n % (2 * d) == 0 {
      var k := Multiple(n, 2 * d);
      assert n == 2 * (k * d);
      MultipleMod(k, d);
    }
    if n % 2 == 0 && (n / 2) % d == 0 {
      var k := Multiple(n / 2, d);
      assert n == k * (2 * d);
      MultipleMod(k, 2 * d);
    }
  }

  /** The test by masking accepts exactly the base addresses of networks. */
  lemma {:induction false} NetaddrWorksIffValid(net: nat, plen: nat, v: Version)
    ensures NetaddrWorks(net, plen, v) <==> Prefix(v, net, plen).Valid()
  {
    if plen <= Bits(v) {
      var h := Bits(v) - plen;
      Pow2Add(plen, h);
      AndMask(net, plen, h);
      if plen == 0 {
        assert (Pow2(plen) - 1) * Pow2(h) == 0;
      }
      FitsBelow(net, plen, h);
    }
  }

  /** An aligned address below the top leaves room for its whole block. */
  lemma {:induction false} FitsBelow(net: nat, p: nat, h: nat)
    ensures net % Pow2(h) == 0 && net < Pow2(p) * Pow2(h) ==> net + Pow2(h) <= Pow2(p) * Pow2(h)
  {
    if net % Pow2(h) == 0 && net < Pow2(p) * Pow2(h) {
      var k := Multiple(net, Pow2(h));
      MulLess(k, Pow2(p), Pow2(h));
    }
  }

  // ------------------------------------------------- the first-last notation

  /** The part of the constructor that reads 'first-last', after both ends parsed. */
  method FirstLast(first: nat, last: nat) returns (r: Result<Prefix>)
    requires first < Pow2(32) && last < Pow2(32)
    ensures r.Ok? <==> first <= last && exists k: nat :: last - first + 1 == Pow2(k) && first % Pow2(k) == 0
    ensures r.Ok? ==> r.value.Valid() && r.value.version == V4
    ensures r.Ok? ==> r.value.ip == first && r.value.ip + r.value.Size() - 1 == last
  {
    hide BitLen;
    if last < first {
      return ValueError;
    }
    var size := last - first;
    var netbits := Count1Bits(size);
    BitLenBounds(size);
    BitLenAtMost(size, 32);
    var net := Prefix(V4, first, 32 - netbits);
    NetaddrWorksIffValid(first, 32 - netbits, V4);
    assert net.Size() == Pow2(netbits);
    forall k: nat | last - first + 1 == Pow2(k) ensures k == netbits {
      if k > 0 {
        assert Pow2(k) == 2 * Pow2(k - 1);
      }
      BitLenUnique(size, k);
    }
    if !NetaddrWorks(first, 32 - netbits, V4) {
      if first % Pow2(netbits) == 0 {
        Pow2Add(32 - netbits, netbits);
        FitsBelow(first, 32 - netbits, netbits);
      }
      return ValueError;
    }
    if net.ip + net.Size() - 1 != last {
      return ValueError;
    }
    assert last - first + 1 == Pow2(netbits);
    return Ok(net);
  }
}
