/** IPSet: a mutable set of addresses kept as a list of networks.
  *
  * Every public method leaves the list canonical, so by PrefixLists.CanonicalUnique
  * the contract "the list is canonical and denotes this set" determines the list.
  */
module IPSets {
  import opened Cidr
  import opened PrefixLists
  import opened Subtraction

  // ------------------------------------------------------------------ sorting

  predicate Sorted(ps: seq<Prefix>) {
    forall i, j | 0 <= i < j < |ps| :: Cmp(ps[i], ps[j]) <= 0
  }

  /** list.sort, known here by its result only: the same members in Cmp order. */
  function Sort(ps: seq<Prefix>): (r: seq<Prefix>)
    ensures Sorted(r)
    ensures multiset(r) == multiset(ps)
  {
    if ps == [] then []
    else
      var n := |ps| - 1;
      assert ps == ps[..n] + [ps[n]];
      InsertSorts(Sort(ps[..n]), ps[n]);
      Insert(Sort(ps[..n]), ps[n])
  }

  function Insert(ps: seq<Prefix>, p: Prefix): (r: seq<Prefix>)
    ensures multiset(r) == multiset(ps) + multiset{p}
  {
    if ps == [] then [p]
    else
      var n := |ps| - 1;
      assert ps == ps[..n] + [ps[n]];
      if Cmp(ps[n], p) <= 0 then ps + [p] else Insert(ps[..n], p) + [ps[n]]
  }

  lemma {:induction false} InsertSorts(ps: seq<Prefix>, p: Prefix)
    requires Sorted(ps)
    ensures Sorted(Insert(ps, p))
  {
    hide Prefix.Size;
    if ps != [] {
      var n := |ps| - 1;
      if Cmp(ps[n], p) <= 0 {
        forall i | 0 <= i < n ensures Cmp(ps[i], p) <= 0 {
          assert Cmp(ps[i], ps[n]) <= 0;
        }
      } else {
        InsertSorts(ps[..n], p);
        var r := Insert(ps[..n], p);
        forall i | 0 <= i < |r| ensures Cmp(r[i], ps[n]) <= 0 {
          assert r[i] in multiset(r);
          assert r[i] == p || r[i] in multiset(ps[..n]);
        }
      }
    }
  }

  lemma {:induction false} SameMultisetSameSet(ps: seq<Prefix>, qs: seq<Prefix>)
    requires multiset(ps) == multiset(qs)
    ensures SameSet(ps, qs)
    ensures AllValid(ps) ==> AllValid(qs)
  {
    forall a ensures In(ps, a) <==> In(qs, a) {
      if i :| 0 <= i < |ps| && ps[i].Has(a) {
        assert ps[i] in multiset(qs);
      }
      if i :| 0 <= i < |qs| && qs[i].Has(a) {
        assert qs[i] in multiset(ps);
      }
    }
    if AllValid(ps) {
      forall i | 0 <= i < |qs| ensures qs[i].Valid() {
        assert qs[i] in multiset(ps);
      }
    }
  }

  // --------------------------------------------------- lists with holes (None)

  datatype Slot = None | Some(value: Prefix)

  ghost predicate InSlots(slots: seq<Slot>, a: Addr) {
    exists i | 0 <= i < |slots| :: slots[i].Some? && slots[i].value.Has(a)
  }

  predicate SlotsOrdered(slots: seq<Slot>) {
    && (forall i | 0 <= i < |slots| && slots[i].Some? :: slots[i].value.Valid())
    && (forall i, j | 0 <= i < j < |slots| && slots[i].Some? && slots[j].Some? ::
          Before(slots[i].value, slots[j].value))
  }

  function Wrap(ps: seq<Prefix>): (slots: seq<Slot>)
    ensures |slots| == |ps|
    ensures forall i | 0 <= i < |ps| :: slots[i] == Some(ps[i])
  {
    seq(|ps|, i requires 0 <= i < |ps| => Some(ps[i]))
  }

  /** The blocks that are still there. */
  function Filter(slots: seq<Slot>): (ps: seq<Prefix>)
    ensures |ps| <= |slots|
  {
    if slots == [] then []
    else
      var n := |slots| - 1;
      if slots[n].Some? then Filter(slots[..n]) + [slots[n].value] else Filter(slots[..n])
  }

  lemma {:induction false} FilterIn(slots: seq<Slot>, a: Addr)
    ensures In(Filter(slots), a) <==> InSlots(slots, a)
  {
    if slots != [] {
      var n := |slots| - 1;
      FilterIn(slots[..n], a);
      if slots[n].Some? {
        InConcat(Filter(slots[..n]), [slots[n].value], a);
        InSingle(slots[n].value, a);
      }
      if InSlots(slots[..n], a) {
        var i :| 0 <= i < n && slots[..n][i].Some? && slots[..n][i].value.Has(a);
        assert slots[i].Some? && slots[i].value.Has(a);
      }
      if i :| 0 <= i < |slots| && slots[i].Some? && slots[i].value.Has(a) {
        assert i < n ==> slots[..n][i].Some? && slots[..n][i].value.Has(a);
      }
    }
  }

  lemma {:induction false} FilterMembers(slots: seq<Slot>, k: nat) returns (i: nat)
    requires k < |Filter(slots)|
    ensures i < |slots| && slots[i] == Some(Filter(slots)[k])
  {
    var n := |slots| - 1;
    if slots[n].Some? && k == |Filter(slots[..n])| {
      i := n;
    } else {
      i := FilterMembers(slots[..n], k);
    }
  }

  lemma {:induction false} FilterOrdered(slots: seq<Slot>)
    requires SlotsOrdered(slots)
    ensures Ordered(Filter(slots))
  {
    if slots != [] {
      var n := |slots| - 1;
      FilterOrdered(slots[..n]);
      if slots[n].Some? {
        var qs := Filter(slots[..n]);
        forall k | 0 <= k < |qs| ensures Before(qs[k], slots[n].value) {
          var i := FilterMembers(slots[..n], k);
          assert slots[i].Some?;
        }
      }
    }
  }

  lemma {:induction false} FilterWrap(ps: seq<Prefix>)
    ensures Filter(Wrap(ps)) == ps
  {
    if ps != [] {
      var n := |ps| - 1;
      FilterWrap(ps[..n]);
      assert Wrap(ps)[..n] == Wrap(ps[..n]);
    }
  }

  lemma {:induction false} FilterDrops(slots: seq<Slot>, i: nat)
    requires i < |slots| && slots[i].None?
    ensures |Filter(slots)| < |slots|
  {
    var n := |slots| - 1;
    if i < n {
      FilterDrops(slots[..n], i);
    }
  }

  // ------------------------------------------------------- the lookup table

  /** The members of one prefix length, in list order. */
  function WithLength(ps: seq<Prefix>, m: nat): (qs: seq<Prefix>)
    ensures forall q | q in qs :: q in ps && q.plen == m
  {
    if ps == [] then []
    else
      var n := |ps| - 1;
      WithLength(ps[..n], m) + (if ps[n].plen == m then [ps[n]] else [])
  }

  ghost predicate Indexes(table: map<nat, seq<Prefix>>, ps: seq<Prefix>) {
    && (forall m :: m in table <==> exists i | 0 <= i < |ps| :: ps[i].plen == m)
    && (forall m | m in table :: table[m] == WithLength(ps, m))
  }

  // ------------------------------------------------------------------- IPSet

  /** The block at i, which holds d, is replaced by what is left of it. */
  predicate SplitAt(ps: seq<Prefix>, d: Prefix, i: int, qs: seq<Prefix>) {
    && 0 <= i < |ps| && ps[i].Valid() && d.Valid() && Contains(ps[i], d)
    && qs == ps[..i] + Cut(ps[i], d) + ps[i + 1..]
  }

  class IPSet {
    var prefixes: seq<Prefix>
    var prefixtable: map<nat, seq<Prefix>>

    ghost predicate Valid()
      reads this
    {
      Canonical(prefixes) && Indexes(prefixtable, prefixes)
    }

    constructor (iterable: seq<Prefix>)
      requires AllValid(iterable)
      ensures Valid()
      ensures Denotes(prefixes) == Denotes(iterable)
    {
      prefixes := iterable;
      prefixtable := map[];
      new;
      Optimize();
    }

    /** Bring any list into canonical form, keeping the set. */
    method Optimize()
      requires AllValid(prefixes)
      modifies this
      ensures Valid()
      ensures Denotes(prefixes) == old(Denotes(prefixes))
    {
      ghost var before := prefixes;
      SameMultisetSameSet(prefixes, Sort(prefixes));
      prefixes := Sort(prefixes);
      var slots := MarkSubsets(prefixes);
      var runAgain := true;
      while runAgain
        invariant SlotsOrdered(slots)
        invariant forall a :: InSlots(slots, a) <==> In(before, a)
        invariant !runAgain ==> prefixes == Filter(slots) && NoSiblings(prefixes)
        decreases if runAgain then 1 + |Filter(slots)| else 0
      {
        prefixes := Filter(slots);
        FilterOrdered(slots);
        forall a ensures In(prefixes, a) <==> In(before, a) {
          FilterIn(slots, a);
        }
        slots, runAgain := MergePass(prefixes);
        if !runAgain {
          FilterWrap(prefixes);
        }
      }
      FilterOrdered(slots);
      forall a ensures In(prefixes, a) <==> In(before, a) {
        FilterIn(slots, a);
      }
      SameSetIffDenotes(prefixes, before);
      BuildTable();
    }

    /** The elimination loop of optimize: overwrite with None whatever lies inside an
      * earlier network. */
    static method MarkSubsets(ps: seq<Prefix>) returns (slots: seq<Slot>)
      requires AllValid(ps) && Sorted(ps)
      ensures SlotsOrdered(slots)
      ensures forall a :: InSlots(slots, a) <==> In(ps, a)
    {
      hide Before, Contains, Cmp, Filter, In, InSlots, Prefix.Has, Prefix.Valid, Prefix.Size, Wrap;
      slots := Wrap(ps);
      var addrlen := |slots|;
      var i := 0;
      forall a ensures InSlots(slots, a) <==> In(ps, a) {
        FilterIn(slots, a);
        FilterWrap(ps);
      }
      while i < addrlen
        invariant 0 <= i <= addrlen == |slots| == |ps|
        invariant forall k | i <= k < addrlen :: slots[k] == Some(ps[k])
        invariant forall k | 0 <= k < addrlen && slots[k].Some? :: slots[k].value == ps[k]
        invariant forall k, l | 0 <= k < i && k < l < addrlen && slots[k].Some? && slots[l].Some? ::
          Before(ps[k], ps[l])
        invariant forall a :: InSlots(slots, a) <==> In(ps, a)
      {
        var j := i + 1;
        while j < addrlen && Contains(slots[i].value, slots[j].value)
          invariant i < j <= addrlen == |slots|
          invariant slots[i] == Some(ps[i])
          invariant forall k | j <= k < addrlen :: slots[k] == Some(ps[k])
          invariant forall k | i < k < j :: slots[k] == None
          invariant forall k | 0 <= k < addrlen && slots[k].Some? :: slots[k].value == ps[k]
          invariant forall k, l | 0 <= k < i && k < l < addrlen && slots[k].Some? && slots[l].Some? ::
            Before(ps[k], ps[l])
          invariant forall a :: InSlots(slots, a) <==> In(ps, a)
        {
          DropCovered(slots, i, j);
          slots := slots[j := None];
          j := j + 1;
        }
        forall l | j <= l < addrlen ensures Before(ps[i], ps[l]) {
          StartsAfter(ps, i, j, l);
        }
        i := j;
      }
    }

    /** One scan of the merge loop: replace neighbours that add up by their sum. */
    static method MergePass(ps: seq<Prefix>) returns (slots: seq<Slot>, runAgain: bool)
      requires Ordered(ps)
      ensures SlotsOrdered(slots)
      ensures forall a :: InSlots(slots, a) <==> In(ps, a)
      ensures !runAgain ==> slots == Wrap(ps) && NoSiblings(ps)
      ensures runAgain ==> |Filter(slots)| < |ps|
    {
      hide Add, Before, InSlots, In, Filter, Prefix.Valid;
      slots := Wrap(ps);
      runAgain := false;
      var addrlen := |slots|;
      var i := 0;
      ghost var hole := 0;
      forall a ensures InSlots(slots, a) <==> In(ps, a) {
        FilterIn(slots, a);
        FilterWrap(ps);
      }
      while i < addrlen - 1
        invariant 0 <= i && addrlen == |slots| == |ps|
        invariant forall k | i <= k < addrlen :: slots[k] == Some(ps[k])
        invariant SlotsOrdered(slots)
        invariant forall a :: InSlots(slots, a) <==> In(ps, a)
        invariant !runAgain ==> slots == Wrap(ps)
        invariant !runAgain ==> forall k | 0 <= k < i && k < addrlen - 1 :: Add(ps[k], ps[k + 1]) == ValueError
        invariant runAgain ==> 0 <= hole < addrlen && hole < i && slots[hole] == None
        decreases addrlen - i
      {
        var j := i + 1;
        var sum := Add(slots[i].value, slots[j].value);
        if sum.Ok? {
          MergeNeighbours(slots, i, sum.value);
          slots := slots[i := Some(sum.value)];
          slots := slots[j := None];
          hole := j;
          i := j + 1;
          runAgain := true;
        } else {
          i := j;
        }
      }
      if runAgain {
        FilterDrops(slots, hole);
      }
    }

    /** Group the list by prefix length. */
    method BuildTable()
      modifies this`prefixtable
      ensures Indexes(prefixtable, prefixes)
    {
      hide WithLength;
      prefixtable := map[];
      for k := 0 to |prefixes|
        invariant prefixes == old(prefixes)
        invariant Indexes(prefixtable, prefixes[..k])
      {
        var address := prefixes[k];
        ghost var table := prefixtable;
        if address.plen in prefixtable {
          prefixtable := prefixtable[address.plen := prefixtable[address.plen] + [address]];
        } else {
          prefixtable := prefixtable[address.plen := [address]];
        }
        assert [] + [address] == [address];
        var group := if address.plen in table then table[address.plen] else [];
        assert prefixtable == table[address.plen := group + [address]];
        IndexNext(table, prefixtable, prefixes, k);
      }
      assert prefixes[..|prefixes|] == prefixes;
    }

    /** IPSet.add for a list of networks: set union. */
    method Extend(value: seq<Prefix>)
      requires Valid() && AllValid(value)
      modifies this
      ensures Valid()
      ensures Denotes(prefixes) == old(Denotes(prefixes)) + Denotes(value)
    {
      prefixes := prefixes + value;
      DenotesConcat(old(prefixes), value);
      Optimize();
    }

    /** IPSet.__add__: a new set, the union of the two. */
    method Plus(other: IPSet) returns (r: IPSet)
      requires Valid() && other.Valid()
      ensures fresh(r) && r.Valid()
      ensures Denotes(r.prefixes) == Denotes(prefixes) + Denotes(other.prefixes)
    {
      DenotesConcat(prefixes, other.prefixes);
      r := new IPSet(prefixes + other.prefixes);
    }

    /** _remove_subprefix, with the sets it builds at every level.  What comes back is
      * the list Subtraction.Cut describes. */
    static method RemoveSubprefix(prefix: Prefix, subprefix: Prefix) returns (r: IPSet)
      requires prefix.Valid() && subprefix.Valid()
      ensures fresh(r) && r.Valid()
      ensures r.prefixes == Cut(prefix, subprefix)
      ensures Denotes(r.prefixes) == Block(prefix) - Block(subprefix)
      decreases Bits(prefix.version) - prefix.plen
    {
      hide Pow2, Denotes, Prefix.Size, Add;
      if Contains(subprefix, prefix) {
        r := new IPSet([]);
      } else if !Contains(prefix, subprefix) {
        r := new IPSet([prefix]);
      } else {
        InOneHalf(prefix, subprefix);
        var halves := [Half(prefix, 0), Half(prefix, 1)];
        if Contains(halves[0], subprefix) {
          var left := RemoveSubprefix(halves[0], subprefix);
          var right := new IPSet([halves[1]]);
          CanonicalUnique(right.prefixes, [halves[1]]);
          DenotesConcat(left.prefixes, right.prefixes);
          r := left.Plus(right);
        } else {
          var left := new IPSet([halves[0]]);
          CanonicalUnique(left.prefixes, [halves[0]]);
          var right := RemoveSubprefix(halves[1], subprefix);
          DenotesConcat(left.prefixes, right.prefixes);
          r := left.Plus(right);
        }
      }
      CutCanonical(prefix, subprefix);
      CanonicalUnique(r.prefixes, Cut(prefix, subprefix));
      forall a ensures a in Denotes(Cut(prefix, subprefix)) <==> a in Block(prefix) && a !in Block(subprefix) {
        DenotesIsIn(Cut(prefix, subprefix), a);
        CutDenotes(prefix, subprefix, a);
      }
    }

    /** The body of the loop in discard: subtract one network from a canonical list.
      * The list stays canonical, so the optimize that follows finds nothing to do. */
    method DiscardOne(d: Prefix)
      requires Canonical(prefixes) && d.Valid()
      modifies this`prefixes
      ensures Canonical(prefixes)
      ensures Subtracted(old(prefixes), [d], prefixes)
      ensures SomeInside(old(prefixes), d) ==> prefixes == Outside(old(prefixes), d)
      ensures !SomeInside(old(prefixes), d) ==>
        || (prefixes == old(prefixes) && forall k | 0 <= k < |prefixes| :: !Contains(prefixes[k], d))
        || exists i :: SplitAt(old(prefixes), d, i, prefixes)
    {
      hide Contains, Cut, Outside, Before, Subtracted, In, NoSiblings, SomeInside, Prefix.Valid;
      ghost var before := prefixes;
      var found := PopInside(d);
      if found {
        PoppedSubtracts(before, d);
        return;
      }
      var i := 0;
      while i < |prefixes|
        invariant 0 <= i <= |prefixes|
        invariant prefixes == before
        invariant forall k | 0 <= k < i :: !Contains(before[k], d)
      {
        if Contains(prefixes[i], d) {
          var rest := RemoveSubprefix(prefixes[i], d);
          prefixes := prefixes[..i] + rest.prefixes + prefixes[i + 1..];
          SplicedSubtracts(before, i, d);
          assert SplitAt(before, d, i, prefixes);
          return;
        }
        i := i + 1;
      }
      ApartSubtracts(before, d);
    }

    /** The first loop of discard: the index runs over the original length while
      * members are popped, so d counts how far the list has shifted. */
    method PopInside(del: Prefix) returns (found: bool)
      requires Canonical(prefixes)
      modifies this`prefixes
      ensures Canonical(prefixes)
      ensures prefixes == Outside(old(prefixes), del)
      ensures found <==> SomeInside(old(prefixes), del)
      ensures !found ==> prefixes == old(prefixes)
    {
      hide *;
      ghost var before := prefixes;
      found := false;
      var d := 0;
      var n := |prefixes|;
      PopBegin(before, del);
      for i := 0 to n
        invariant Popped(before, prefixes, del, i, d)
        invariant found <==> d > 0
      {
        PopStep(before, prefixes, del, i, d);
        if Contains(del, prefixes[i - d]) {
          prefixes := prefixes[..i - d] + prefixes[i - d + 1..];
          d := d + 1;
          found := true;
        }
      }
      PopEnd(before, prefixes, del, d);
    }

    /** IPSet.discard for a list of networks: set difference. */
    method Discard(value: seq<Prefix>)
      requires Valid() && AllValid(value)
      modifies this
      ensures Valid()
      ensures Denotes(prefixes) == old(Denotes(prefixes)) - Denotes(value)
    {
      ghost var before := prefixes;
      SubtractedNothing(before);
      for k := 0 to |value|
        invariant Canonical(prefixes)
        invariant Subtracted(before, value[..k], prefixes)
      {
        ghost var now := prefixes;
        DiscardOne(value[k]);
        SubtractedNext(before, value, k, now, prefixes);
      }
      assert value[..|value|] == value;
      DifferenceDenotes(before, value, prefixes);
      Optimize();
    }

    /** IPSet.__sub__: a new set, the difference of the two. */
    method Minus(other: IPSet) returns (r: IPSet)
      requires Valid() && other.Valid()
      ensures fresh(r) && r.Valid()
      ensures Denotes(r.prefixes) == Denotes(prefixes) - Denotes(other.prefixes)
    {
      hide Indexes, Prefix.Valid, NoSiblings, Before;
      r := new IPSet(prefixes);
      for k := 0 to |other.prefixes|
        invariant fresh(r) && r.Valid()
        invariant Denotes(r.prefixes) == Denotes(prefixes) - Denotes(other.prefixes[..k])
      {
        r.Discard([other.prefixes[k]]);
        assert other.prefixes[..k + 1] == other.prefixes[..k] + [other.prefixes[k]];
        DenotesConcat(other.prefixes[..k], [other.prefixes[k]]);
      }
      assert other.prefixes[..|other.prefixes|] == other.prefixes;
    }

    /** IPSet.discard for another IPSet.  The loop walks the argument's own list, and
      * when the argument is the set itself that list is being shortened under it: the
      * networks at odd positions survive instead of none. */
    method DiscardSet(other: IPSet)
      requires Valid() && other.Valid()
      modifies this
      ensures Valid()
      ensures Discarded(other == this, old(prefixes), old(other.prefixes), prefixes)
    {
      ghost var before := prefixes;
      ghost var removed := other.prefixes;
      hide *;
      ghost var self := other == this;
      RoundBegin(self, before, removed);
      var k := 0;
      while k < |other.prefixes|
        invariant Canonical(prefixes)
        invariant !self ==> other.prefixes == removed
        invariant Round(self, before, removed, prefixes, k)
        decreases |other.prefixes| - k
      {
        ghost var now := prefixes;
        DiscardOne(other.prefixes[k]);
        RoundNext(self, before, removed, now, prefixes, k);
        k := k + 1;
      }
      ghost var result := prefixes;
      Optimize();
      CanonicalUnique(prefixes, result);
      RoundEnd(self, before, removed, prefixes, k);
    }

    /** IPSet.len */
    function Len(): (n: nat)
      requires Valid()
      reads this
      ensures n == |Denotes(prefixes)|
    {
      TotalSizeIsCardinality(prefixes);
      TotalSize(prefixes)
    }
  }

  // -------------------------------------------------- facts used by the loops

  /** A network that lies inside an earlier one may be dropped. */
  lemma {:induction false} DropCovered(slots: seq<Slot>, i: nat, j: nat)
    requires i < |slots| && j < |slots| && i != j && slots[i].Some? && slots[j].Some?
    requires Contains(slots[i].value, slots[j].value)
    ensures forall a :: InSlots(slots[j := None], a) <==> InSlots(slots, a)
  {
    var after := slots[j := None];
    forall a ensures InSlots(after, a) <==> InSlots(slots, a) {
      if k :| 0 <= k < |slots| && slots[k].Some? && slots[k].value.Has(a) {
        var w := if k == j then i else k;
        assert after[w].Some? && after[w].value.Has(a);
      }
      if k :| 0 <= k < |after| && after[k].Some? && after[k].value.Has(a) {
        assert slots[k].Some? && slots[k].value.Has(a);
      }
    }
  }

  /** The three ways one round of discard can go. */
  lemma {:induction false} PoppedSubtracts(ps: seq<Prefix>, d: Prefix)
    requires Canonical(ps) && d.Valid() && SomeInside(ps, d)
    ensures Subtracted(ps, [d], Outside(ps, d))
  {
    hide Outside, Pow2, Prefix.Size;
    forall i | 0 <= i < |ps| && Contains(ps[i], d) ensures Contains(d, ps[i]) {
      var k :| 0 <= k < |ps| && Contains(d, ps[k]);
      InsideExcludesAround(ps, d, k, i);
    }
    forall a ensures In(Outside(ps, d), a) <==> In(ps, a) && !In([d], a) {
      OutsideSubtracts(ps, d, a);
      InSingle(d, a);
    }
  }

  lemma {:induction false} SplicedSubtracts(ps: seq<Prefix>, i: nat, d: Prefix)
    requires Canonical(ps) && d.Valid() && i < |ps| && Contains(ps[i], d)
    ensures Canonical(ps[..i] + Cut(ps[i], d) + ps[i + 1..])
    ensures Subtracted(ps, [d], ps[..i] + Cut(ps[i], d) + ps[i + 1..])
  {
    hide Cut, Pow2, Prefix.Size;
    CutInside(ps[i], d);
    CutCanonical(ps[i], d);
    SpliceKeepsCanonical(ps, i, Cut(ps[i], d));
    forall a ensures In(ps[..i] + Cut(ps[i], d) + ps[i + 1..], a) <==> In(ps, a) && !In([d], a) {
      SpliceSubtracts(ps, i, d, a);
      InSingle(d, a);
    }
  }

  lemma {:induction false} ApartSubtracts(ps: seq<Prefix>, d: Prefix)
    requires Canonical(ps) && d.Valid() && !SomeInside(ps, d)
    requires forall k | 0 <= k < |ps| :: !Contains(ps[k], d)
    ensures Subtracted(ps, [d], ps)
  {
    hide Pow2, Prefix.Size;
    forall a ensures In(ps, a) <==> In(ps, a) && !In([d], a) {
      InSingle(d, a);
      forall k | 0 <= k < |ps| && ps[k].Has(a) ensures !d.Has(a) {
        if ps[k].version == d.version {
          if ps[k].plen <= d.plen {
            NestedOrApart(ps[k], d);
          } else {
            NestedOrApart(d, ps[k]);
          }
        }
      }
    }
  }

  /** Once a sorted list has left the block of ps[i], it stays beyond it. */
  lemma {:induction false} StartsAfter(ps: seq<Prefix>, i: nat, j: nat, l: nat)
    requires AllValid(ps) && Sorted(ps) && i < j <= l < |ps|
    requires !Contains(ps[i], ps[j])
    ensures Before(ps[i], ps[l])
  {
    assert Cmp(ps[i], ps[j]) <= 0;
    SortedNestedOrAfter(ps[i], ps[j]);
    assert j < l ==> Cmp(ps[j], ps[l]) <= 0;
  }

  /** Merging two neighbours changes neither the set nor the order. */
  lemma {:induction false} MergeNeighbours(slots: seq<Slot>, i: nat, sum: Prefix)
    requires SlotsOrdered(slots) && i + 1 < |slots| && slots[i].Some? && slots[i + 1].Some?
    requires Add(slots[i].value, slots[i + 1].value) == Ok(sum)
    ensures SlotsOrdered(slots[i := Some(sum)][i + 1 := None])
    ensures forall a :: InSlots(slots[i := Some(sum)][i + 1 := None], a) <==> InSlots(slots, a)
  {
    hide Pow2, Add;
    var p, q := slots[i].value, slots[i + 1].value;
    AddedHalves(p, q);
    HalvesPartition(sum);
    var after := slots[i := Some(sum)][i + 1 := None];
    forall a ensures InSlots(after, a) <==> InSlots(slots, a) {
      if k :| 0 <= k < |slots| && slots[k].Some? && slots[k].value.Has(a) {
        var w := if k == i + 1 then i else k;
        assert after[w].Some? && after[w].value.Has(a);
      }
      if k :| 0 <= k < |after| && after[k].Some? && after[k].value.Has(a) {
        var w := if k == i && !p.Has(a) then i + 1 else k;
        assert slots[w].Some? && slots[w].value.Has(a);
      }
    }
  }

  /** The state of the popping loop after i rounds that removed d members. */
  ghost predicate Popped(before: seq<Prefix>, now: seq<Prefix>, del: Prefix, i: nat, d: nat) {
    && d <= i <= |before|
    && |Outside(before[..i], del)| == i - d
    && now == Outside(before[..i], del) + before[i..]
  }

  lemma {:induction false} OutsideShrinks(ps: seq<Prefix>, d: Prefix)
    ensures |Outside(ps, d)| < |ps| <==> SomeInside(ps, d)
    ensures !SomeInside(ps, d) ==> Outside(ps, d) == ps
  {
    if ps != [] {
      var n := |ps| - 1;
      OutsideShrinks(ps[..n], d);
      if SomeInside(ps[..n], d) {
        var i :| 0 <= i < n && Contains(d, ps[..n][i]);
        assert Contains(d, ps[i]);
      }
      if i :| 0 <= i < |ps| && Contains(d, ps[i]) {
        assert i < n ==> Contains(d, ps[..n][i]);
      }
    }
  }

  lemma {:induction false} PopBegin(before: seq<Prefix>, del: Prefix)
    ensures Popped(before, before, del, 0, 0)
  {
    assert before[..0] == [] && before[0..] == before;
  }

  lemma {:induction false} PopStep(before: seq<Prefix>, now: seq<Prefix>, del: Prefix, i: nat, d: nat)
    requires i < |before| && Popped(before, now, del, i, d)
    ensures d <= i && i - d < |now| && now[i - d] == before[i]
    ensures Contains(del, before[i]) ==> Popped(before, now[..i - d] + now[i - d + 1..], del, i + 1, d + 1)
    ensures !Contains(del, before[i]) ==> Popped(before, now, del, i + 1, d)
  {
    assert before[..i + 1][..i] == before[..i];
    assert before[i..] == [before[i]] + before[i + 1..];
  }

  lemma {:induction false} PopEnd(before: seq<Prefix>, now: seq<Prefix>, del: Prefix, d: nat)
    requires Canonical(before) && Popped(before, now, del, |before|, d)
    ensures Canonical(now) && now == Outside(before, del)
    ensures d > 0 <==> SomeInside(before, del)
    ensures d == 0 ==> now == before
  {
    assert before[..|before|] == before && before[|before|..] == [];
    OutsideShrinks(before, del);
    OutsideCanonical(before, del, |before|);
  }

  lemma {:induction false} OutsideCanonical(ps: seq<Prefix>, d: Prefix, i: nat)
    requires Canonical(ps) && i <= |ps|
    ensures Canonical(Outside(ps[..i], d) + ps[i..])
  {
    if i == 0 {
      assert Outside(ps[..0], d) + ps[0..] == ps;
    } else {
      OutsideCanonical(ps, d, i - 1);
      var now := Outside(ps[..i - 1], d) + ps[i - 1..];
      var k := |Outside(ps[..i - 1], d)|;
      assert ps[..i][..i - 1] == ps[..i - 1];
      assert now[k] == ps[i - 1];
      if Contains(d, ps[i - 1]) {
        RemoveKeepsCanonical(now, k);
        assert now[..k] + now[k + 1..] == Outside(ps[..i], d) + ps[i..];
      } else {
        assert now == Outside(ps[..i], d) + ps[i..];
      }
    }
  }

  lemma {:induction false} IndexNext(table: map<nat, seq<Prefix>>, table': map<nat, seq<Prefix>>, ps: seq<Prefix>,
          k: nat)
    requires k < |ps| && Indexes(table, ps[..k])
    requires var m := ps[k].plen;
      table' == table[m := (if m in table then table[m] else []) + [ps[k]]]
    ensures Indexes(table', ps[..k + 1])
  {
    hide Prefix.Size;
    var m := ps[k].plen;
    var now, next := ps[..k], ps[..k + 1];
    assert next[..k] == now;
    assert next[k].plen == m;
    if m !in table {
      AbsentLength(now, m);
    }
    forall l ensures l in table' <==> exists i | 0 <= i < |next| :: next[i].plen == l {
      if i :| 0 <= i < |now| && now[i].plen == l {
        assert next[i].plen == l;
      }
      if i :| 0 <= i < |next| && next[i].plen == l {
        assert i < k ==> now[i].plen == l;
      }
    }
  }

  lemma {:induction false} AbsentLength(ps: seq<Prefix>, m: nat)
    requires forall i | 0 <= i < |ps| :: ps[i].plen != m
    ensures WithLength(ps, m) == []
  {
    if ps != [] {
      AbsentLength(ps[..|ps| - 1], m);
    }
  }

  lemma {:induction false} DenotesConcat(ps: seq<Prefix>, qs: seq<Prefix>)
    ensures Denotes(ps + qs) == Denotes(ps) + Denotes(qs)
  {
    forall a ensures a in Denotes(ps + qs) <==> a in Denotes(ps) || a in Denotes(qs) {
      DenotesIsIn(ps + qs, a);
      DenotesIsIn(ps, a);
      DenotesIsIn(qs, a);
      InConcat(ps, qs, a);
    }
  }

  /** rs denotes what is left of ps without qs. */
  ghost predicate Subtracted(ps: seq<Prefix>, qs: seq<Prefix>, rs: seq<Prefix>) {
    forall a :: In(rs, a) <==> In(ps, a) && !In(qs, a)
  }

  lemma {:induction false} SubtractedNothing(ps: seq<Prefix>)
    ensures Subtracted(ps, [], ps)
  {
  }

  lemma {:induction false} SubtractedNext(ps: seq<Prefix>, qs: seq<Prefix>, k: nat, now: seq<Prefix>, next: seq<Prefix>)
    requires k < |qs| && Subtracted(ps, qs[..k], now) && Subtracted(now, [qs[k]], next)
    ensures Subtracted(ps, qs[..k + 1], next)
  {
    assert qs[..k + 1] == qs[..k] + [qs[k]];
    forall a ensures In(qs[..k + 1], a) <==> In(qs[..k], a) || In([qs[k]], a) {
      InConcat(qs[..k], [qs[k]], a);
    }
  }

  lemma {:induction false} DifferenceDenotes(ps: seq<Prefix>, qs: seq<Prefix>, rs: seq<Prefix>)
    requires Subtracted(ps, qs, rs)
    ensures Denotes(rs) == Denotes(ps) - Denotes(qs)
  {
    forall a ensures a in Denotes(rs) <==> a in Denotes(ps) && a !in Denotes(qs) {
      DenotesIsIn(rs, a);
      DenotesIsIn(ps, a);
      DenotesIsIn(qs, a);
    }
  }

  /** The members at positions 1, 3, 5, ... */
  function Odds(ps: seq<Prefix>): (qs: seq<Prefix>)
    ensures |qs| == |ps| / 2
    ensures forall i | 0 <= i < |qs| :: qs[i] == ps[2 * i + 1]
  {
    seq(|ps| / 2, i requires 0 <= i < |ps| / 2 => ps[2 * i + 1])
  }

  /** What is left after k rounds of a set discarding itself. */
  function OddsUpTo(ps: seq<Prefix>, k: nat): (qs: seq<Prefix>)
    requires k <= (|ps| + 1) / 2
    ensures |qs| == |ps| - k
    ensures forall i | 0 <= i < |qs| :: qs[i] == if i < k then ps[2 * i + 1] else ps[i + k]
  {
    seq(|ps| - k, i requires 0 <= i < |ps| - k => if i < k then ps[2 * i + 1] else ps[i + k])
  }

  /** The state of a set-by-set discard after k rounds; self says that the argument is
    * the set itself, otherwise removed is the argument's list. */
  ghost predicate Round(self: bool, before: seq<Prefix>, removed: seq<Prefix>, now: seq<Prefix>, k: nat) {
    if self then k <= (|before| + 1) / 2 && now == OddsUpTo(before, k)
    else k <= |removed| && Subtracted(before, removed[..k], now)
  }

  /** What discarding removed from before leaves: the difference, or the networks at odd
    * positions when a set discards itself. */
  ghost predicate Discarded(self: bool, before: seq<Prefix>, removed: seq<Prefix>, after: seq<Prefix>) {
    if self then after == Odds(before)
    else Denotes(after) == Denotes(before) - Denotes(removed)
  }

  lemma {:induction false} RoundBegin(self: bool, before: seq<Prefix>, removed: seq<Prefix>)
    ensures Round(self, before, removed, before, 0)
  {
    if self {
      assert before == OddsUpTo(before, 0);
    } else {
      SubtractedNothing(before);
    }
  }

  lemma {:induction false} RoundNext(self: bool, before: seq<Prefix>, removed: seq<Prefix>, now: seq<Prefix>,
          next: seq<Prefix>, k: nat)
    requires Round(self, before, removed, now, k) && Canonical(now)
    requires k < if self then |now| else |removed|
    requires var d := if self then now[k] else removed[k];
      Subtracted(now, [d], next) && (SomeInside(now, d) ==> next == Outside(now, d))
    ensures Round(self, before, removed, next, k + 1)
    ensures self ==> |next| < |now|
  {
    if self {
      assert Contains(now[k], now[k]);
      OutsideMember(now, k);
      OddsShift(before, k);
    } else {
      SubtractedNext(before, removed, k, now, next);
    }
  }

  lemma {:induction false} RoundEnd(self: bool, before: seq<Prefix>, removed: seq<Prefix>, now: seq<Prefix>, k: nat)
    requires Round(self, before, removed, now, k)
    requires k >= if self then |now| else |removed|
    ensures Discarded(self, before, removed, now)
  {
    if self {
      hide OddsUpTo, Odds;
      assert now == Odds(before);
    } else {
      assert removed[..k] == removed;
      DifferenceDenotes(before, removed, now);
    }
  }

  lemma {:induction false} OddsShift(ps: seq<Prefix>, k: nat)
    requires 2 * k < |ps|
    ensures OddsUpTo(ps, k)[..k] + OddsUpTo(ps, k)[k + 1..] == OddsUpTo(ps, k + 1)
  {
    hide OddsUpTo;
  }

  lemma {:induction false} OutsideMember(ps: seq<Prefix>, k: nat)
    requires Ordered(ps) && k < |ps|
    ensures Outside(ps, ps[k]) == ps[..k] + ps[k + 1..]
  {
    var n := |ps| - 1;
    assert ps == ps[..n] + [ps[n]];
    if k == n {
      OutsideNone(ps[..n], ps[n]);
    } else {
      OutsideMember(ps[..n], k);
      BeforeApart(ps[k], ps[n]);
      assert ps[..n][..k] + ps[..n][k + 1..] + [ps[n]] == ps[..k] + ps[k + 1..];
    }
  }

  lemma {:induction false} OutsideNone(ps: seq<Prefix>, d: Prefix)
    requires forall i | 0 <= i < |ps| :: Before(ps[i], d)
    ensures Outside(ps, d) == ps
  {
    if ps != [] {
      var n := |ps| - 1;
      OutsideNone(ps[..n], d);
      BeforeApart(ps[n], d);
    }
  }

  /** Discarding a set from itself empties it exactly when it holds at most one network. */
  lemma {:induction false} SelfDiscardIff(ps: seq<Prefix>)
    requires Canonical(ps)
    ensures Denotes(Odds(ps)) == Denotes(ps) - Denotes(ps) <==> |ps| <= 1
  {
    if |ps| > 1 {
      var a := Addr(ps[1].version, ps[1].ip);
      assert Odds(ps)[0].Has(a);
      DenotesIsIn(Odds(ps), a);
    }
  }
}
