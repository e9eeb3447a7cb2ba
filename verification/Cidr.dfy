/** Networks in CIDR form and the elementary operations IPy defines on them.
  *
  * A network is an aligned block of 2^(bits - plen) addresses.  Everything the
  * set algebra needs follows from one geometric fact, proved here as
  * NestedOrApart: two aligned blocks of one address family are either nested or
  * disjoint.
  */
module Cidr {

  datatype Version = V4 | V6

  /** An address is a number together with the family it belongs to. */
  datatype Addr = Addr(version: Version, value: int)

  function Bits(v: Version): nat {
    match v
    case V4 => 32
    case V6 => 128
  }

  function Pow2(n: nat): (r: nat)
    ensures r > 0
  {
    if n == 0 then 1 else 2 * Pow2(n - 1)
  }

  lemma {:induction false} Pow2Add(a: nat, b: nat)
    ensures Pow2(a + b) == Pow2(a) * Pow2(b)
  {
    if b == 0 {
    } else {
      Pow2Add(a, b - 1);
      calc {
        Pow2(a + b);
        2 * Pow2(a + (b - 1));
        2 * (Pow2(a) * Pow2(b - 1));
        Pow2(a) * (2 * Pow2(b - 1));
      }
    }
  }

  lemma {:induction false} Pow2Less(a: nat, b: nat)
    requires a < b
    ensures 2 * Pow2(a) <= Pow2(b)
  {
    if a + 1 < b {
      Pow2Less(a, b - 1);
    }
  }

  datatype Prefix = Prefix(version: Version, ip: nat, plen: nat) {

    /** The number of addresses in the network, IPint.len. */
    function Size(): (r: nat)
      ensures r > 0
    {
      if plen <= Bits(version) then Pow2(Bits(version) - plen) else 1
    }

    /** What the IP constructor enforces: the host part of the address is zero. */
    predicate Valid() {
      && plen <= Bits(version)
      && ip % Size() == 0
      && ip + Size() <= Pow2(Bits(version))
    }

    predicate Has(a: Addr) {
      a.version == version && ip <= a.value < ip + Size()
    }
  }

  /** IPint.__contains__ for an argument that is itself a network. */
  predicate Contains(p: Prefix, item: Prefix) {
    && item.version == p.version
    && item.ip >= p.ip
    && item.ip < p.ip + p.Size() - item.Size() + 1
  }

  /** IPint.__cmp__: family, then first address, then prefix length. */
  function Cmp(p: Prefix, q: Prefix): int {
    if p.version != q.version then (if p.version.V4? then -1 else 1)
    else if p.ip != q.ip then (if p.ip < q.ip then -1 else 1)
    else if p.plen != q.plen then (if p.plen < q.plen then -1 else 1)
    else 0
  }

  /** The block p ends before the block q starts, or p is IPv4 and q IPv6. */
  predicate Before(p: Prefix, q: Prefix) {
    || (p.version.V4? && q.version.V6?)
    || (p.version == q.version && p.ip + p.Size() <= q.ip)
  }

  datatype Result<T> = Ok(value: T) | ValueError

  /** IPint.__add__: the union of two sibling networks. */
  function Add(p: Prefix, q: Prefix): Result<Prefix>
    decreases if Cmp(p, q) > 0 then 1 else 0
  {
    if p.version != q.version then ValueError
    else if p.plen != q.plen then ValueError
    else if p.plen < 1 then ValueError
    else if Cmp(p, q) > 0 then Add(q, p)
    else if q.ip - (p.ip + p.Size() - 1) != 1 then ValueError
    else
      var r := Prefix(p.version, p.ip, p.plen - 1);
      if r.Valid() then Ok(r) else ValueError
  }

  /** The lower (b == 0) or upper (b == 1) half of a network. */
  function Half(p: Prefix, b: nat): Prefix
    requires b < 2
  {
    Prefix(p.version, p.ip + b * (p.Size() / 2), p.plen + 1)
  }

  // ---------------------------------------------------------------- geometry

  /** Sizes of nested blocks divide each other. */
  lemma {:induction false} SizesDivide(p: Prefix, q: Prefix) returns (c: nat)
    requires p.Valid() && q.Valid() && p.version == q.version && p.plen <= q.plen
    ensures c > 0 && p.Size() == c * q.Size()
    ensures p.plen < q.plen ==> c >= 2
  {
    c := Pow2(q.plen - p.plen);
    Pow2Add(q.plen - p.plen, Bits(p.version) - q.plen);
    if p.plen < q.plen {
      Pow2Less(0, q.plen - p.plen);
    }
  }

  lemma {:induction false} Multiple(x: nat, s: nat) returns (k: nat)
    requires s > 0 && x % s == 0
    ensures x == k * s
  {
    k := x / s;
  }

  lemma {:induction false} MulMono(a: int, b: int, s: nat)
    requires a <= b
    ensures a * s <= b * s
  {
    assert (b - a) * s >= 0;
  }

  lemma {:induction false} MulLess(a: int, b: int, s: nat)
    requires a * s < b * s
    ensures a + 1 <= b && a * s + s <= b * s
  {
    if b <= a {
      MulMono(b, a, s);
    }
    MulMono(a + 1, b, s);
  }

  /** Two aligned blocks of one family are nested or disjoint. */
  lemma {:induction false} NestedOrApart(p: Prefix, q: Prefix)
    requires p.Valid() && q.Valid() && p.version == q.version && p.plen <= q.plen
    ensures Contains(p, q) || Before(p, q) || Before(q, p)
  {
    hide Pow2, Prefix.Size;
    var c := SizesDivide(p, q);
    var m := Multiple(q.ip, q.Size());
    var n := Multiple(p.ip, p.Size());
    Regroup(n, c, q.Size());
    Regroup(n + 1, c, q.Size());
    if q.ip < p.ip {
      MulLess(m, n * c, q.Size());
    } else if q.ip < p.ip + p.Size() {
      MulLess(m, (n + 1) * c, q.Size());
    }
  }

  lemma {:induction false} Regroup(n: int, c: int, s: int)
    ensures n * (c * s) == (n * c) * s
  {
  }

  /** Containment is inclusion of the two blocks. */
  lemma {:induction false} ContainsIffSubset(p: Prefix, q: Prefix)
    ensures Contains(p, q) <==> forall a :: q.Has(a) ==> p.Has(a)
  {
    if forall a :: q.Has(a) ==> p.Has(a) {
      assert q.Has(Addr(q.version, q.ip));
      assert q.Has(Addr(q.version, q.ip + q.Size() - 1));
    }
  }

  /** A contained block is at least as long a prefix; equal lengths mean equal blocks. */
  lemma {:induction false} ContainedIsLonger(p: Prefix, q: Prefix)
    requires p.Valid() && q.Valid() && Contains(p, q)
    ensures p.plen <= q.plen
    ensures p.plen == q.plen ==> p == q
  {
    if q.plen < p.plen {
      Pow2Less(Bits(p.version) - p.plen, Bits(p.version) - q.plen);
    }
  }

  /** In sorted order, whatever is not inside p starts after p ends. */
  lemma {:induction false} SortedNestedOrAfter(p: Prefix, q: Prefix)
    requires p.Valid() && q.Valid() && Cmp(p, q) <= 0
    ensures Contains(p, q) || Before(p, q)
  {
    if p.version == q.version {
      if p.plen <= q.plen {
        NestedOrApart(p, q);
      } else {
        NestedOrApart(q, p);
      }
    }
  }

  lemma {:induction false} HalvesPartition(p: Prefix)
    requires p.Valid() && p.plen < Bits(p.version)
    ensures Half(p, 0).Valid() && Half(p, 1).Valid()
    ensures Half(p, 0).Size() == Half(p, 1).Size() && p.Size() == 2 * Half(p, 0).Size()
    ensures Before(Half(p, 0), Half(p, 1))
    ensures forall a :: p.Has(a) <==> Half(p, 0).Has(a) || Half(p, 1).Has(a)
  {
    var s := Half(p, 0).Size();
    assert p.Size() == 2 * s;
    var k := Multiple(p.ip, p.Size());
    assert p.ip == (2 * k) * s && p.ip + s == (2 * k + 1) * s;
    MultipleMod(2 * k, s);
    MultipleMod(2 * k + 1, s);
  }

  lemma {:induction false} MultipleMod(k: nat, s: nat)
    requires s > 0
    ensures (k * s) % s == 0
  {
    assert k * s == s * k + 0;
    DivModUnique(k * s, s, k, 0);
  }

  lemma {:induction false} DivModUnique(x: int, d: int, q: int, r: int)
    requires d > 0 && x == d * q + r && 0 <= r < d
    ensures x / d == q && x % d == r
  {
    var q' := x / d;
    assert x == d * q' + x % d;
    assert (q' - q) * d == r - x % d;
    if q' > q {
      MulMono(1, q' - q, d);
    } else if q' < q {
      MulMono(q' - q, -1, d);
    }
  }

  /** p and q are the lower and upper half of r. */
  predicate Halves(r: Prefix, p: Prefix, q: Prefix) {
    r.Valid() && r.plen < Bits(r.version) && Half(r, 0) == p && Half(r, 1) == q
  }

  lemma {:induction false} AddedHalves(p: Prefix, q: Prefix)
    requires p.Valid() && q.Valid() && Cmp(p, q) <= 0
    ensures Add(p, q).Ok? ==> Halves(Add(p, q).value, p, q)
  {
    if Add(p, q).Ok? {
      var r := Add(p, q).value;
      assert r.Size() == 2 * p.Size();
    }
  }

  lemma {:induction false} HalvesAdd(r: Prefix, p: Prefix, q: Prefix)
    requires p.Valid() && q.Valid() && Halves(r, p, q)
    ensures Cmp(p, q) < 0
    ensures Add(p, q) == Ok(r) == Add(q, p)
  {
    assert r.Size() == 2 * p.Size();
  }

  /** IPint.__add__ succeeds exactly on the two halves of one network, in either
    * order, and then returns that network. */
  lemma {:induction false} AddIffHalves(p: Prefix, q: Prefix)
    requires p.Valid() && q.Valid()
    ensures Add(p, q).Ok? <==> exists r :: Halves(r, p, q) || Halves(r, q, p)
    ensures Add(p, q).Ok? ==> Halves(Add(p, q).value, p, q) || Halves(Add(p, q).value, q, p)
  {
    if Cmp(p, q) <= 0 {
      AddedHalves(p, q);
    } else {
      AddedHalves(q, p);
    }
    if r :| Halves(r, p, q) || Halves(r, q, p) {
      if Halves(r, p, q) {
        HalvesAdd(r, p, q);
      } else {
        HalvesAdd(r, q, p);
      }
    }
  }
}
