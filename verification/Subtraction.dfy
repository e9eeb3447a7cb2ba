/** What is left of one network when another is taken out of it.
  *
  * Cut is the list _remove_subprefix arrives at by halving; the lemmas say that it
  * denotes exactly the difference, that it is canonical as it stands (so the merging
  * IPSet does at every level never finds anything to merge), and how long it is.
  */
module Subtraction {
  import opened Cidr
  import opened PrefixLists

  function Cut(p: Prefix, s: Prefix): seq<Prefix>
    requires p.Valid() && s.Valid()
    decreases Bits(p.version) - p.plen
  {
    if Contains(s, p) then []
    else if !Contains(p, s) then [p]
    else
      ContainedIsLonger(p, s);
      HalvesPartition(p);
      if Contains(Half(p, 0), s) then Cut(Half(p, 0), s) + [Half(p, 1)]
      else [Half(p, 0)] + Cut(Half(p, 1), s)
  }

  /** A network inside p other than p is inside one of its halves and apart from the other. */
  lemma {:induction false} InOneHalf(p: Prefix, s: Prefix)
    requires p.Valid() && s.Valid() && Contains(p, s) && !Contains(s, p)
    ensures p.plen < s.plen
    ensures Half(p, 0).Valid() && Half(p, 1).Valid()
    ensures Contains(Half(p, 0), s) <==> !Contains(Half(p, 1), s)
    ensures Contains(Half(p, 0), s) ==> Before(s, Half(p, 1))
    ensures Contains(Half(p, 1), s) ==> Before(Half(p, 0), s)
  {
    ContainedIsLonger(p, s);
    HalvesPartition(p);
    NestedOrApart(Half(p, 0), s);
    NestedOrApart(Half(p, 1), s);
  }

  /** The pieces denote the difference. */
  lemma {:induction false} CutDenotes(p: Prefix, s: Prefix, a: Addr)
    requires p.Valid() && s.Valid()
    ensures In(Cut(p, s), a) <==> p.Has(a) && !s.Has(a)
    decreases Bits(p.version) - p.plen
  {
    if Contains(s, p) {
    } else if !Contains(p, s) {
      InSingle(p, a);
      if p.version == s.version {
        if p.plen <= s.plen {
          NestedOrApart(p, s);
        } else {
          NestedOrApart(s, p);
        }
      }
    } else {
      InOneHalf(p, s);
      HalvesPartition(p);
      var lower, upper := Half(p, 0), Half(p, 1);
      if Contains(lower, s) {
        CutDenotes(lower, s, a);
        InConcat(Cut(lower, s), [upper], a);
        InSingle(upper, a);
      } else {
        CutDenotes(upper, s, a);
        InConcat([lower], Cut(upper, s), a);
        InSingle(lower, a);
      }
    }
  }

  lemma {:induction false} InSingle(p: Prefix, a: Addr)
    ensures In([p], a) <==> p.Has(a)
  {
    assert [p][0] == p;
  }

  lemma {:induction false} ContainsTrans(p: Prefix, q: Prefix, r: Prefix)
    requires Contains(p, q) && Contains(q, r)
    ensures Contains(p, r)
  {
  }

  /** Every piece is a network inside p, and smaller than p when something was cut. */
  lemma {:induction false} CutInside(p: Prefix, s: Prefix)
    requires p.Valid() && s.Valid()
    ensures forall k | 0 <= k < |Cut(p, s)| ::
      && Cut(p, s)[k].Valid()
      && Contains(p, Cut(p, s)[k])
      && (Contains(p, s) ==> p.plen < Cut(p, s)[k].plen)
    decreases Bits(p.version) - p.plen
  {
    if Contains(p, s) && !Contains(s, p) {
      InOneHalf(p, s);
      HalvesPartition(p);
      if Contains(Half(p, 0), s) {
        CutInside(Half(p, 0), s);
      } else {
        CutInside(Half(p, 1), s);
      }
    }
  }

  /** The pieces are sorted, disjoint, and no two of them merge. */
  lemma {:induction false} CutCanonical(p: Prefix, s: Prefix)
    requires p.Valid() && s.Valid()
    ensures Canonical(Cut(p, s))
    decreases Bits(p.version) - p.plen
  {
    hide Pow2;
    if Contains(p, s) && !Contains(s, p) {
      InOneHalf(p, s);
      HalvesPartition(p);
      var lower, upper := Half(p, 0), Half(p, 1);
      if Contains(lower, s) {
        CutCanonical(lower, s);
        CutInside(lower, s);
      } else {
        CutCanonical(upper, s);
        CutInside(upper, s);
      }
    }
  }

  /** One piece per level between p and s. */
  lemma {:induction false} CutLength(p: Prefix, s: Prefix)
    requires p.Valid() && s.Valid() && Contains(p, s)
    ensures p.plen <= s.plen && |Cut(p, s)| == s.plen - p.plen
    decreases Bits(p.version) - p.plen
  {
    if Contains(s, p) {
      ContainedIsLonger(p, s);
      ContainedIsLonger(s, p);
    } else {
      InOneHalf(p, s);
      if Contains(Half(p, 0), s) {
        CutLength(Half(p, 0), s);
      } else {
        CutLength(Half(p, 1), s);
      }
    }
  }

  // ------------------------------------------------- discarding from a list

  /** The members that are not inside d. */
  function Outside(ps: seq<Prefix>, d: Prefix): (qs: seq<Prefix>)
    ensures |qs| <= |ps|
  {
    if ps == [] then []
    else
      var n := |ps| - 1;
      if Contains(d, ps[n]) then Outside(ps[..n], d) else Outside(ps[..n], d) + [ps[n]]
  }

  ghost predicate SomeInside(ps: seq<Prefix>, d: Prefix) {
    exists i | 0 <= i < |ps| :: Contains(d, ps[i])
  }

  lemma {:induction false} OutsideIsIn(ps: seq<Prefix>, d: Prefix, a: Addr)
    ensures In(Outside(ps, d), a) <==> exists i | 0 <= i < |ps| :: ps[i].Has(a) && !Contains(d, ps[i])
  {
    if ps != [] {
      var n := |ps| - 1;
      OutsideIsIn(ps[..n], d, a);
      assert ps == ps[..n] + [ps[n]];
      InConcat(Outside(ps[..n], d), [ps[n]], a);
      InSingle(ps[n], a);
      if i :| 0 <= i < |ps| && ps[i].Has(a) && !Contains(d, ps[i]) {
        assert i < n ==> ps[..n][i].Has(a);
      }
      if i :| 0 <= i < n && ps[..n][i].Has(a) && !Contains(d, ps[..n][i]) {
        assert ps[i].Has(a) && !Contains(d, ps[i]);
      }
    }
  }

  /** Dropping every member inside d subtracts d, when nothing reaches around d. */
  lemma {:induction false} OutsideSubtracts(ps: seq<Prefix>, d: Prefix, a: Addr)
    requires AllValid(ps) && d.Valid()
    requires forall i | 0 <= i < |ps| :: Contains(ps[i], d) ==> Contains(d, ps[i])
    ensures In(Outside(ps, d), a) <==> In(ps, a) && !d.Has(a)
  {
    OutsideIsIn(ps, d, a);
    forall i | 0 <= i < |ps| && ps[i].Has(a) ensures Contains(d, ps[i]) <==> d.Has(a) {
      if ps[i].version == d.version {
        if ps[i].plen <= d.plen {
          NestedOrApart(ps[i], d);
        } else {
          NestedOrApart(d, ps[i]);
        }
      }
    }
  }

  /** In an ordered list, if d swallows a member then no member reaches around d. */
  lemma {:induction false} InsideExcludesAround(ps: seq<Prefix>, d: Prefix, i: nat, j: nat)
    requires Ordered(ps) && d.Valid() && i < |ps| && j < |ps|
    requires Contains(d, ps[i]) && Contains(ps[j], d)
    ensures i == j && ps[i] == d
  {
    ContainsTrans(ps[j], d, ps[i]);
    if i < j {
      BeforeApart(ps[i], ps[j]);
    } else if j < i {
      BeforeApart(ps[j], ps[i]);
    } else {
      ContainedIsLonger(d, ps[i]);
      ContainedIsLonger(ps[i], d);
    }
  }

  /** Replacing the one member around d by its pieces subtracts d. */
  lemma {:induction false} SpliceSubtracts(ps: seq<Prefix>, i: nat, d: Prefix, a: Addr)
    requires Ordered(ps) && d.Valid() && i < |ps| && Contains(ps[i], d)
    ensures In(ps[..i] + Cut(ps[i], d) + ps[i + 1..], a) <==> In(ps, a) && !d.Has(a)
  {
    hide Pow2, Cut, Prefix.Size;
    InConcat(ps[..i] + Cut(ps[i], d), ps[i + 1..], a);
    InConcat(ps[..i], Cut(ps[i], d), a);
    CutDenotes(ps[i], d, a);
    assert ps == ps[..i] + [ps[i]] + ps[i + 1..];
    InConcat(ps[..i] + [ps[i]], ps[i + 1..], a);
    InConcat(ps[..i], [ps[i]], a);
    InSingle(ps[i], a);
    if In(ps[..i], a) {
      var k :| 0 <= k < |ps[..i]| && ps[..i][k].Has(a);
      BeforeApart(ps[k], ps[i]);
    }
    if In(ps[i + 1..], a) {
      var k :| 0 <= k < |ps[i + 1..]| && ps[i + 1..][k].Has(a);
      BeforeApart(ps[i], ps[i + 1 + k]);
    }
  }
}
