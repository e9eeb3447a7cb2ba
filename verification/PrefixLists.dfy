/** Lists of networks, the set of addresses they denote, and the canonical list of
  * a set: sorted, pairwise disjoint, and with no two neighbours that could be merged.
  *
  * The main result is CanonicalUnique: a set of addresses has at most one canonical
  * list.  It turns "same set" into "same list", which is what IPSet relies on when it
  * compares, measures and searches its list instead of the addresses.
  */
module PrefixLists {
  import opened Cidr

  predicate AllValid(ps: seq<Prefix>) {
    forall i | 0 <= i < |ps| :: ps[i].Valid()
  }

  ghost predicate In(ps: seq<Prefix>, a: Addr) {
    exists i | 0 <= i < |ps| :: ps[i].Has(a)
  }

  /** Two lists denote the same set of addresses. */
  ghost predicate SameSet(ps: seq<Prefix>, qs: seq<Prefix>) {
    forall a :: In(ps, a) <==> In(qs, a)
  }

  /** Sorted and pairwise disjoint. */
  predicate Ordered(ps: seq<Prefix>) {
    && AllValid(ps)
    && forall i, j | 0 <= i < j < |ps| :: Before(ps[i], ps[j])
  }

  predicate NoSiblings(ps: seq<Prefix>) {
    forall i | 0 <= i < |ps| - 1 :: Add(ps[i], ps[i + 1]) == ValueError
  }

  predicate Canonical(ps: seq<Prefix>) {
    Ordered(ps) && NoSiblings(ps)
  }

  /** The addresses of one network, as a finite set. */
  ghost function Block(p: Prefix): set<Addr> {
    set x | p.ip <= x < p.ip + p.Size() :: Addr(p.version, x)
  }

  ghost function Denotes(ps: seq<Prefix>): set<Addr> {
    if ps == [] then {} else Block(ps[0]) + Denotes(ps[1..])
  }

  /** IPSet.len: the sum of the sizes of the listed networks. */
  function TotalSize(ps: seq<Prefix>): nat {
    if ps == [] then 0 else ps[0].Size() + TotalSize(ps[1..])
  }

  // ------------------------------------------------------------- denotation

  lemma {:induction false} DenotesIsIn(ps: seq<Prefix>, a: Addr)
    ensures a in Denotes(ps) <==> In(ps, a)
  {
    if ps != [] {
      DenotesIsIn(ps[1..], a);
      assert a in Block(ps[0]) <==> ps[0].Has(a);
      if In(ps[1..], a) {
        var i :| 0 <= i < |ps[1..]| && ps[1..][i].Has(a);
        assert ps[i + 1].Has(a);
      }
      if In(ps, a) && !ps[0].Has(a) {
        var i :| 0 <= i < |ps| && ps[i].Has(a);
        assert ps[1..][i - 1].Has(a);
      }
    }
  }

  lemma {:induction false} SameSetIffDenotes(ps: seq<Prefix>, qs: seq<Prefix>)
    ensures SameSet(ps, qs) <==> Denotes(ps) == Denotes(qs)
  {
    forall a ensures (a in Denotes(ps) <==> In(ps, a)) && (a in Denotes(qs) <==> In(qs, a)) {
      DenotesIsIn(ps, a);
      DenotesIsIn(qs, a);
    }
  }

  lemma {:induction false} InConcat(ps: seq<Prefix>, qs: seq<Prefix>, a: Addr)
    ensures In(ps + qs, a) <==> In(ps, a) || In(qs, a)
  {
    if In(ps, a) {
      var i :| 0 <= i < |ps| && ps[i].Has(a);
      assert (ps + qs)[i].Has(a);
    }
    if In(qs, a) {
      var i :| 0 <= i < |qs| && qs[i].Has(a);
      assert (ps + qs)[|ps| + i].Has(a);
    }
    if In(ps + qs, a) {
      var i :| 0 <= i < |ps + qs| && (ps + qs)[i].Has(a);
      assert if i < |ps| then ps[i].Has(a) else qs[i - |ps|].Has(a);
    }
  }

  lemma {:induction false} IntervalSize(v: Version, lo: int, n: nat)
    ensures |set x | lo <= x < lo + n :: Addr(v, x)| == n
  {
    var s := set x | lo <= x < lo + n :: Addr(v, x);
    if n == 0 {
      assert s == {};
    } else {
      IntervalSize(v, lo, n - 1);
      assert s == (set x | lo <= x < lo + (n - 1) :: Addr(v, x)) + {Addr(v, lo + n - 1)};
    }
  }

  /** On a sorted disjoint list, IPSet.len is the number of addresses denoted. */
  lemma {:induction false} TotalSizeIsCardinality(ps: seq<Prefix>)
    requires Ordered(ps)
    ensures |Denotes(ps)| == TotalSize(ps)
  {
    hide Pow2, Prefix.Size;
    if ps != [] {
      var first, rest := ps[0], ps[1..];
      TotalSizeIsCardinality(rest);
      IntervalSize(first.version, first.ip, first.Size());
      forall a | a in Block(first) ensures a !in Denotes(rest) {
        DenotesIsIn(rest, a);
        forall i | 0 <= i < |rest| ensures !rest[i].Has(a) {
          assert Before(ps[0], ps[i + 1]);
        }
      }
      assert Block(first) !! Denotes(rest);
    }
  }

  // ------------------------------------------------------------- uniqueness

  lemma {:induction false} BeforeApart(p: Prefix, q: Prefix)
    requires Before(p, q)
    ensures !Contains(p, q) && !Contains(q, p) && p != q
    ensures forall a :: !(p.Has(a) && q.Has(a))
  {
  }

  /** In an ordered list the two halves of a network can only be neighbours. */
  lemma {:induction false} HalvesAreNeighbours(ps: seq<Prefix>, i: nat, j: nat, r: Prefix)
    requires Ordered(ps) && i < |ps| && j < |ps| && Halves(r, ps[i], ps[j])
    ensures j == i + 1
  {
    HalvesPartition(r);
    assert i + 1 < |ps| ==> Before(ps[i], ps[i + 1]);
  }

  lemma {:induction false} CanonicalHasNoHalves(ps: seq<Prefix>, i: nat, j: nat, r: Prefix)
    requires Canonical(ps) && i < |ps| && j < |ps|
    ensures !Halves(r, ps[i], ps[j])
  {
    if Halves(r, ps[i], ps[j]) {
      HalvesAreNeighbours(ps, i, j, r);
      HalvesAdd(r, ps[i], ps[j]);
    }
  }

  /** A listed network that meets one half of q but not all of q is inside that half,
    * and covers it as soon as it contains it. */
  lemma {:induction false} HalfOrWhole(p: Prefix, q: Prefix, h: Prefix)
    requires p.Valid() && q.Valid() && h.Valid()
    requires Contains(q, h) && h.plen == q.plen + 1 && Contains(p, h)
    ensures Contains(p, q) || p == h
  {
    ContainedIsLonger(p, h);
    if p.plen <= q.plen {
      NestedOrApart(p, q);
    }
  }

  /** Every network all of whose addresses are denoted by a canonical list lies
    * inside a single member of the list. */
  lemma {:induction false} CanonicalCovers(ps: seq<Prefix>, q: Prefix) returns (k: nat)
    requires Canonical(ps) && q.Valid()
    requires forall a :: q.Has(a) ==> In(ps, a)
    ensures k < |ps| && Contains(ps[k], q)
    decreases Bits(q.version) - q.plen
  {
    if q.plen == Bits(q.version) {
      var a := Addr(q.version, q.ip);
      assert q.Has(a);
      k :| 0 <= k < |ps| && ps[k].Has(a);
    } else {
      HalvesPartition(q);
      var lower, upper := Half(q, 0), Half(q, 1);
      var i := CanonicalCovers(ps, lower);
      var j := CanonicalCovers(ps, upper);
      HalfOrWhole(ps[i], q, lower);
      HalfOrWhole(ps[j], q, upper);
      k := if Contains(ps[i], q) then i else j;
      if !Contains(ps[k], q) {
        CanonicalHasNoHalves(ps, i, j, q);
      }
    }
  }

  lemma {:induction false} MemberIsShared(ps: seq<Prefix>, qs: seq<Prefix>, i: nat)
    requires Canonical(ps) && Canonical(qs) && SameSet(ps, qs) && i < |ps|
    ensures ps[i] in qs
  {
    forall a | ps[i].Has(a) ensures In(qs, a) {
      assert In(ps, a);
    }
    var j := CanonicalCovers(qs, ps[i]);
    forall a | qs[j].Has(a) ensures In(ps, a) {
      assert In(qs, a);
    }
    var k := CanonicalCovers(ps, qs[j]);
    ContainsIffSubset(qs[j], ps[i]);
    ContainsIffSubset(ps[k], qs[j]);
    ContainsIffSubset(ps[k], ps[i]);
    if k < i {
      BeforeApart(ps[k], ps[i]);
    } else if i < k {
      BeforeApart(ps[i], ps[k]);
    }
    assert ps[i].ip == qs[j].ip;
    ContainedIsLonger(qs[j], ps[i]);
    ContainedIsLonger(ps[i], qs[j]);
  }

  lemma {:induction false} HeadIsLeast(ps: seq<Prefix>, x: Prefix)
    requires Ordered(ps) && x in ps
    ensures x == ps[0] || Before(ps[0], x)
  {
  }

  lemma {:induction false} SameMembersSameList(ps: seq<Prefix>, qs: seq<Prefix>)
    requires Ordered(ps) && Ordered(qs)
    requires forall x :: x in ps <==> x in qs
    ensures ps == qs
  {
    assert (ps != [] ==> ps[0] in ps) && (qs != [] ==> qs[0] in qs);
    if ps != [] {
      HeadIsLeast(ps, qs[0]);
      HeadIsLeast(qs, ps[0]);
      assert ps[0] == qs[0];
      forall x ensures x in ps[1..] <==> x in qs[1..] {
        TailMembers(ps, x);
        TailMembers(qs, x);
      }
      SameMembersSameList(ps[1..], qs[1..]);
    }
  }

  lemma {:induction false} TailMembers(ps: seq<Prefix>, x: Prefix)
    requires Ordered(ps) && ps != []
    ensures x in ps[1..] <==> x in ps && x != ps[0]
  {
    if x in ps[1..] {
      var i :| 0 <= i < |ps[1..]| && ps[1..][i] == x;
      assert Before(ps[0], ps[i + 1]);
    }
  }

  /** Two canonical lists denote the same set exactly when they are the same list. */
  lemma {:induction false} CanonicalUnique(ps: seq<Prefix>, qs: seq<Prefix>)
    requires Canonical(ps) && Canonical(qs)
    ensures Denotes(ps) == Denotes(qs) <==> ps == qs
  {
    if Denotes(ps) == Denotes(qs) {
      SameSetIffDenotes(ps, qs);
      forall x ensures x in ps <==> x in qs {
        if x in ps {
          var i :| 0 <= i < |ps| && ps[i] == x;
          MemberIsShared(ps, qs, i);
        }
        if x in qs {
          var i :| 0 <= i < |qs| && qs[i] == x;
          MemberIsShared(qs, ps, i);
        }
      }
      SameMembersSameList(ps, qs);
    }
  }

  // ------------------------------------------- editing a canonical list

  /** Taking any one network out of a canonical list leaves it canonical. */
  lemma {:induction false} RemoveKeepsCanonical(ps: seq<Prefix>, i: nat)
    requires Canonical(ps) && i < |ps|
    ensures Canonical(ps[..i] + ps[i + 1..])
  {
    var qs := ps[..i] + ps[i + 1..];
    forall k | 0 <= k < |qs| - 1 ensures Add(qs[k], qs[k + 1]) == ValueError {
      if k + 1 == i {
        // what was taken out lay between them
        assert Before(ps[i - 1], ps[i]) && Before(ps[i], ps[i + 1]);
      } else if k + 1 < i {
        assert qs[k] == ps[k] && qs[k + 1] == ps[k + 1];
      } else {
        assert qs[k] == ps[k + 1] && qs[k + 1] == ps[k + 2];
      }
    }
  }

  /** Both halves of a network lie inside any larger network that contains one. */
  lemma {:induction false} SiblingInside(p: Prefix, r: Prefix, h: Prefix)
    requires p.Valid() && r.Valid() && h.Valid() && Contains(r, h) && h.plen == r.plen + 1
    requires Contains(p, h) && p.plen < h.plen
    ensures Contains(p, r)
  {
    NestedOrApart(p, r);
  }

  lemma {:induction false} HalvesStayInside(p: Prefix, r: Prefix, inner: Prefix, outer: Prefix)
    requires p.Valid() && inner.Valid() && outer.Valid()
    requires Contains(p, inner) && p.plen < inner.plen
    requires Halves(r, inner, outer) || Halves(r, outer, inner)
    ensures Contains(p, outer)
  {
    hide Pow2;
    HalvesPartition(r);
    SiblingInside(p, r, inner);
  }

  /** A network strictly inside p cannot be merged with one that is apart from p. */
  lemma {:induction false} NoMergeAcross(p: Prefix, inner: Prefix, outer: Prefix)
    requires p.Valid() && inner.Valid() && outer.Valid()
    requires Contains(p, inner) && p.plen < inner.plen
    requires Before(p, outer) || Before(outer, p)
    ensures Add(inner, outer) == ValueError && Add(outer, inner) == ValueError
  {
    hide Add, Pow2;
    AddIffHalves(inner, outer);
    AddIffHalves(outer, inner);
    if Add(inner, outer).Ok? {
      HalvesStayInside(p, Add(inner, outer).value, inner, outer);
    }
    if Add(outer, inner).Ok? {
      HalvesStayInside(p, Add(outer, inner).value, inner, outer);
    }
  }

  /** Replacing a listed network by a canonical list of strictly smaller networks
    * inside it leaves the whole list canonical. */
  lemma {:induction false} SpliceKeepsCanonical(ps: seq<Prefix>, i: nat, cut: seq<Prefix>)
    requires Canonical(ps) && i < |ps| && Canonical(cut)
    requires forall k | 0 <= k < |cut| :: Contains(ps[i], cut[k]) && ps[i].plen < cut[k].plen
    ensures Canonical(ps[..i] + cut + ps[i + 1..])
  {
    hide Add, Pow2;
    var qs := ps[..i] + cut + ps[i + 1..];
    var m := i + |cut|;
    assert forall k | 0 <= k < i :: qs[k] == ps[k];
    assert forall k | i <= k < m :: qs[k] == cut[k - i];
    assert forall k | m <= k < |qs| :: qs[k] == ps[k - |cut| + 1];
    assert Ordered(qs) by {
      forall k, l | 0 <= k < l < |qs| ensures Before(qs[k], qs[l]) {
        if k < i && i <= l < m {
          assert Before(ps[k], ps[i]);
        } else if i <= k < m && m <= l {
          assert Before(ps[i], ps[l - |cut| + 1]);
        }
      }
    }
    forall k | 0 <= k < |qs| - 1 ensures Add(qs[k], qs[k + 1]) == ValueError {
      if k < i && i <= k + 1 < m {
        NoMergeAcross(ps[i], qs[k + 1], ps[k]);
      } else if i <= k < m && m <= k + 1 {
        NoMergeAcross(ps[i], qs[k], ps[k + 1 - |cut| + 1]);
      } else if k < i && m <= k + 1 {
        RemoveKeepsCanonical(ps, i);
        assert (ps[..i] + ps[i + 1..])[k] == qs[k];
        assert (ps[..i] + ps[i + 1..])[k + 1] == qs[k + 1];
      } else if k + 1 < i {
        assert qs[k] == ps[k] && qs[k + 1] == ps[k + 1];
      } else if i <= k && k + 1 < m {
        assert qs[k] == cut[k - i] && qs[k + 1] == cut[k - i + 1];
      } else {
        assert qs[k] == ps[k - |cut| + 1] && qs[k + 1] == ps[k - |cut| + 2];
      }
    }
  }
}
