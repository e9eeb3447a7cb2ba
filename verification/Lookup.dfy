/** IPSet.__contains__: search the table of networks grouped by prefix length.
  *
  * The groups are visited in dictionary order, which the language leaves open, so the
  * order of the keys is a parameter here.  Within a group the bisection is exact; over
  * several groups the method gives up as soon as one group lies entirely above the
  * query, so it can miss a member.  AlwaysRightIff says exactly when no order of the keys
  * makes it do so; a dictionary that keeps its keys in order of insertion never does
  * (InsertionOrderIsExact).
  */
module Lookup {
  import opened Cidr
  import opened PrefixLists
  import opened IPSets

  /** bisect.bisect: the number of entries that are not greater than x. */
  method Bisect(a: seq<Prefix>, x: Prefix) returns (lo: nat)
    requires Sorted(a)
    ensures lo <= |a|
    ensures forall k | 0 <= k < lo :: Cmp(x, a[k]) >= 0
    ensures forall k | lo <= k < |a| :: Cmp(x, a[k]) < 0
  {
    lo := 0;
    var hi := |a|;
    while lo < hi
      invariant lo <= hi <= |a|
      invariant forall k | 0 <= k < lo :: Cmp(x, a[k]) >= 0
      invariant forall k | hi <= k < |a| :: Cmp(x, a[k]) < 0
    {
      var mid := (lo + hi) / 2;
      if Cmp(x, a[mid]) < 0 {
        forall k | mid <= k < |a| ensures Cmp(x, a[k]) < 0 {
          assert mid < k ==> Cmp(a[mid], a[k]) <= 0;
        }
        hi := mid;
      } else {
        forall k | 0 <= k <= mid ensures Cmp(x, a[k]) >= 0 {
          assert k < mid ==> Cmp(a[k], a[mid]) <= 0;
        }
        lo := mid + 1;
      }
    }
  }

  ghost predicate Member(ps: seq<Prefix>, x: Prefix) {
    exists i | 0 <= i < |ps| :: Contains(ps[i], x)
  }

  /** The group lies entirely above the query. */
  predicate Above(bucket: seq<Prefix>, x: Prefix) {
    bucket != [] && Cmp(x, bucket[0]) < 0
  }

  lemma {:induction false} OrderedIsSorted(ps: seq<Prefix>)
    requires Ordered(ps)
    ensures Sorted(ps)
  {
    forall i, j | 0 <= i < j < |ps| ensures Cmp(ps[i], ps[j]) <= 0 {
      assert Before(ps[i], ps[j]);
    }
  }

  /** Only the entry just before the insertion point can contain the query. */
  lemma {:induction false} ProbeIsExact(bucket: seq<Prefix>, x: Prefix, i: nat)
    requires Ordered(bucket) && i <= |bucket|
    requires forall k | 0 <= k < i :: Cmp(x, bucket[k]) >= 0
    requires forall k | i <= k < |bucket| :: Cmp(x, bucket[k]) < 0
    requires x.Valid() && forall k | 0 <= k < |bucket| :: bucket[k].plen <= x.plen
    ensures Member(bucket, x) <==> i > 0 && Contains(bucket[i - 1], x)
  {
    if k :| 0 <= k < |bucket| && Contains(bucket[k], x) {
      assert k < i by {
        if bucket[k].ip == x.ip {
          assert Cmp(x, bucket[k]) >= 0;
        }
      }
      assert k < i - 1 ==> Before(bucket[k], bucket[i - 1]);
    }
  }

  /** What the loop over the groups answers, visiting them in the order of masks. */
  ghost predicate Answer(masks: seq<nat>, table: map<nat, seq<Prefix>>, x: Prefix)
    requires forall m | m in masks :: m in table
  {
    if masks == [] then false
    else if Above(table[masks[0]], x) then false
    else Member(table[masks[0]], x) || Answer(masks[1..], table, x)
  }

  /** The keys that are short enough to hold the query, in the same order. */
  function UpTo(keys: seq<nat>, mask: nat): (masks: seq<nat>)
    ensures forall m :: m in masks <==> m in keys && m <= mask
  {
    if keys == [] then []
    else (if keys[0] <= mask then [keys[0]] else []) + UpTo(keys[1..], mask)
  }

  predicate Distinct(keys: seq<nat>) {
    forall i, j | 0 <= i < j < |keys| :: keys[i] != keys[j]
  }

  /** keys lists the keys of the table in some order. */
  ghost predicate Lists(keys: seq<nat>, table: map<nat, seq<Prefix>>) {
    Distinct(keys) && forall m :: m in keys <==> m in table
  }

  lemma {:induction false} BucketFacts(ps: seq<Prefix>, m: nat)
    requires Ordered(ps)
    ensures Ordered(WithLength(ps, m))
    ensures forall x :: x in WithLength(ps, m) <==> x in ps && x.plen == m
  {
    if ps != [] {
      var n := |ps| - 1;
      BucketFacts(ps[..n], m);
      assert ps == ps[..n] + [ps[n]];
      forall k | 0 <= k < |WithLength(ps[..n], m)| ensures Before(WithLength(ps[..n], m)[k], ps[n]) {
        assert WithLength(ps[..n], m)[k] in ps[..n];
      }
    }
  }

  /** The groups of a table, taken together, hold the members of the list. */
  lemma {:induction false} MemberByBucket(ps: seq<Prefix>, table: map<nat, seq<Prefix>>, x: Prefix)
    requires Canonical(ps) && Indexes(table, ps) && x.Valid()
    ensures Member(ps, x) <==> exists m | m in table && m <= x.plen :: Member(table[m], x)
  {
    hide Pow2, Prefix.Size, WithLength, Before, NoSiblings;
    if Member(ps, x) {
      var i :| 0 <= i < |ps| && Contains(ps[i], x);
      ContainedIsLonger(ps[i], x);
      BucketFacts(ps, ps[i].plen);
      assert ps[i] in table[ps[i].plen];
      var k :| 0 <= k < |table[ps[i].plen]| && table[ps[i].plen][k] == ps[i];
      assert Member(table[ps[i].plen], x);
    }
    if m :| m in table && m <= x.plen && Member(table[m], x) {
      BucketFacts(ps, m);
      var k :| 0 <= k < |table[m]| && Contains(table[m][k], x);
      assert table[m][k] in ps;
      var i :| 0 <= i < |ps| && ps[i] == table[m][k];
    }
  }

  /** IPSet.__contains__ for a network, with the dictionary order of the keys given. */
  method Find(s: IPSet, keys: seq<nat>, ip: Prefix) returns (answer: bool)
    requires s.Valid() && ip.Valid() && Lists(keys, s.prefixtable)
    ensures answer <==> Answer(UpTo(keys, ip.plen), s.prefixtable, ip)
    ensures answer ==> Member(s.prefixes, ip)
    ensures |s.prefixtable| <= 1 ==> (answer <==> Member(s.prefixes, ip))
  {
    hide Pow2, Prefix.Size, WithLength, Contains, Cmp, Before, NoSiblings;
    var validMasks := UpTo(keys, ip.plen);
    AnswerSound(validMasks, s.prefixes, s.prefixtable, ip);
    if |s.prefixtable| <= 1 {
      OneLengthIsExact(keys, s.prefixes, s.prefixtable, ip);
    }
    for k := 0 to |validMasks|
      invariant Answer(validMasks, s.prefixtable, ip) <==> Answer(validMasks[k..], s.prefixtable, ip)
    {
      var mask := validMasks[k];
      BucketFacts(s.prefixes, mask);
      OrderedIsSorted(s.prefixtable[mask]);
      BucketInhabited(s.prefixes, s.prefixtable, mask);
      var i := Bisect(s.prefixtable[mask], ip);
      ProbeIsExact(s.prefixtable[mask], ip, i);
      if i == 0 {
        return false;
      }
      if Contains(s.prefixtable[mask][i - 1], ip) {
        return true;
      }
    }
    return false;
  }

  lemma {:induction false} BucketInhabited(ps: seq<Prefix>, table: map<nat, seq<Prefix>>, m: nat)
    requires Canonical(ps) && Indexes(table, ps) && m in table
    ensures table[m] != []
  {
    BucketFacts(ps, m);
    var i :| 0 <= i < |ps| && ps[i].plen == m;
    assert ps[i] in table[m];
  }

  lemma {:induction false} AnswerSound(masks: seq<nat>, ps: seq<Prefix>, table: map<nat, seq<Prefix>>, x: Prefix)
    requires Canonical(ps) && Indexes(table, ps) && x.Valid()
    requires forall m | m in masks :: m in table && m <= x.plen
    ensures Answer(masks, table, x) ==> Member(ps, x)
  {
    hide Pow2, Prefix.Size, WithLength, Contains, Cmp, Before, NoSiblings, Above, Prefix.Valid, Canonical;
    if masks != [] {
      AnswerSound(masks[1..], ps, table, x);
      MemberByBucket(ps, table, x);
      assert masks[0] in masks;
    }
  }

  /** The answer is yes exactly when some visited group holds the query and no group
    * visited before it lies entirely above the query. */
  lemma {:induction false} AnswerIff(masks: seq<nat>, table: map<nat, seq<Prefix>>, x: Prefix)
    requires forall m | m in masks :: m in table
    requires forall m | m in masks :: Member(table[m], x) ==> !Above(table[m], x)
    ensures Answer(masks, table, x) <==> exists h | 0 <= h < |masks| ::
      Member(table[masks[h]], x) && forall k | 0 <= k < h :: !Above(table[masks[k]], x)
  {
    if masks != [] {
      var rest := masks[1..];
      AnswerIff(rest, table, x);
      if h :| 0 <= h < |rest| && Member(table[rest[h]], x) && forall k | 0 <= k < h :: !Above(table[rest[k]], x) {
        if !Above(table[masks[0]], x) {
          assert masks[h + 1] == rest[h];
          assert forall k | 0 <= k < h + 1 :: !Above(table[masks[k]], x);
        }
      }
      if h :| 0 <= h < |masks| && Member(table[masks[h]], x) && forall k | 0 <= k < h :: !Above(table[masks[k]], x) {
        if h > 0 {
          assert rest[h - 1] == masks[h];
          assert forall k | 0 <= k < h - 1 :: rest[k] == masks[k + 1];
        }
      }
    }
  }

  /** A group that holds the query is not above it. */
  lemma {:induction false} HolderIsNotAbove(ps: seq<Prefix>, table: map<nat, seq<Prefix>>, m: nat, x: Prefix)
    requires Canonical(ps) && Indexes(table, ps) && x.Valid() && m in table && m <= x.plen
    requires Member(table[m], x)
    ensures !Above(table[m], x)
  {
    hide Pow2, WithLength, NoSiblings;
    BucketFacts(ps, m);
    var k :| 0 <= k < |table[m]| && Contains(table[m][k], x);
    assert k > 0 ==> Before(table[m][0], table[m][k]);
  }

  lemma {:induction false} OneLengthIsExact(keys: seq<nat>, ps: seq<Prefix>, table: map<nat, seq<Prefix>>, x: Prefix)
    requires Canonical(ps) && Indexes(table, ps) && x.Valid() && Lists(keys, table) && |table| <= 1
    ensures Answer(UpTo(keys, x.plen), table, x) <==> Member(ps, x)
  {
    hide Pow2, Prefix.Size, WithLength, Contains, Cmp, Before, NoSiblings, Member;
    AnswerSound(UpTo(keys, x.plen), ps, table, x);
    if Member(ps, x) {
      MemberByBucket(ps, table, x);
      var m :| m in table && m <= x.plen && Member(table[m], x);
      HolderIsNotAbove(ps, table, m, x);
      assert table.Keys == {m} by {
        assert |table.Keys - {m}| == 0;
      }
      var masks := UpTo(keys, x.plen);
      assert m in masks;
      assert masks[0] in masks;
    }
  }

  /** No group that __contains__ may visit before the right one makes it give up. */
  ghost predicate NoneAbove(table: map<nat, seq<Prefix>>, x: Prefix) {
    forall m | m in table && m <= x.plen :: !Above(table[m], x)
  }

  lemma {:induction false} KeyOrder(s: set<nat>) returns (keys: seq<nat>)
    ensures Distinct(keys) && forall m :: m in keys <==> m in s
    decreases |s|
  {
    if s == {} {
      keys := [];
    } else {
      var m :| m in s;
      var rest := KeyOrder(s - {m});
      keys := [m] + rest;
    }
  }

  /** __contains__ agrees with a scan of the whole list, for this order of the keys. */
  ghost predicate Right(keys: seq<nat>, ps: seq<Prefix>, table: map<nat, seq<Prefix>>, x: Prefix)
    requires Lists(keys, table)
  {
    Answer(UpTo(keys, x.plen), table, x) <==> Member(ps, x)
  }

  lemma {:induction false} RightForEveryOrder(keys: seq<nat>, ps: seq<Prefix>, table: map<nat, seq<Prefix>>, x: Prefix)
    requires Canonical(ps) && Indexes(table, ps) && x.Valid() && Lists(keys, table)
    requires Member(ps, x) ==> NoneAbove(table, x)
    ensures Right(keys, ps, table, x)
  {
    AnswerSound(UpTo(keys, x.plen), ps, table, x);
    if Member(ps, x) {
      MemberByBucket(ps, table, x);
      var holder :| holder in table && holder <= x.plen && Member(table[holder], x);
      FindsHolder(UpTo(keys, x.plen), table, x, holder);
    }
  }

  lemma {:induction false} WrongForSomeOrder(ps: seq<Prefix>, table: map<nat, seq<Prefix>>,
          x: Prefix) returns (keys: seq<nat>)
    requires Member(ps, x) && !NoneAbove(table, x)
    ensures Lists(keys, table) && !Right(keys, ps, table, x)
  {
    var m :| m in table && m <= x.plen && Above(table[m], x);
    var rest := KeyOrder(table.Keys - {m});
    keys := [m] + rest;
    forall k ensures k in keys <==> k in table {
      assert k in keys <==> k == m || k in rest;
    }
    assert UpTo(keys, x.plen)[0] == m;
  }

  /** For a member, __contains__ answers yes under every dictionary order exactly when no
    * group of short enough prefixes lies entirely above the query.  For a non-member it
    * always answers no. */
  lemma {:induction false} AlwaysRightIff(ps: seq<Prefix>, table: map<nat, seq<Prefix>>, x: Prefix)
    requires Canonical(ps) && Indexes(table, ps) && x.Valid()
    ensures (forall keys | Lists(keys, table) :: Right(keys, ps, table, x))
       <==> (Member(ps, x) ==> NoneAbove(table, x))
  {
    if Member(ps, x) ==> NoneAbove(table, x) {
      forall keys | Lists(keys, table) ensures Right(keys, ps, table, x) {
        RightForEveryOrder(keys, ps, table, x);
      }
    } else {
      var keys := WrongForSomeOrder(ps, table, x);
    }
  }

  lemma {:induction false} FindsHolder(masks: seq<nat>, table: map<nat, seq<Prefix>>, x: Prefix, holder: nat)
    requires forall m | m in masks :: m in table && !Above(table[m], x)
    requires holder in masks && Member(table[holder], x)
    ensures Answer(masks, table, x)
  {
    assert masks[0] in masks;
    if masks[0] != holder {
      FindsHolder(masks[1..], table, x, holder);
    }
  }

  // ------------------------------------------------------ keys in order of insertion

  /** The order in which building the table meets the prefix lengths. */
  function FirstSeen(ps: seq<Prefix>): (keys: seq<nat>)
    ensures Distinct(keys)
  {
    if ps == [] then []
    else
      var n := |ps| - 1;
      var keys := FirstSeen(ps[..n]);
      if ps[n].plen in keys then keys else keys + [ps[n].plen]
  }

  lemma {:induction false} SeenIff(ps: seq<Prefix>, m: nat)
    ensures m in FirstSeen(ps) <==> exists i | 0 <= i < |ps| :: ps[i].plen == m
  {
    if ps != [] {
      var n := |ps| - 1;
      SeenIff(ps[..n], m);
      assert forall i | 0 <= i < n :: ps[..n][i].plen == ps[i].plen;
    }
  }

  lemma {:induction false} SeenLists(ps: seq<Prefix>, table: map<nat, seq<Prefix>>)
    requires Indexes(table, ps)
    ensures Lists(FirstSeen(ps), table)
  {
    forall m: nat ensures m in FirstSeen(ps) <==> m in table {
      SeenIff(ps, m);
    }
  }

  lemma {:induction false} SeenHasEntry(ps: seq<Prefix>, m: nat)
    requires m in FirstSeen(ps)
    ensures WithLength(ps, m) != []
  {
    var n := |ps| - 1;
    if ps[n].plen != m {
      SeenHasEntry(ps[..n], m);
    }
  }

  lemma {:induction false} UnseenHasNone(ps: seq<Prefix>, m: nat)
    requires m !in FirstSeen(ps)
    ensures WithLength(ps, m) == []
  {
    if ps != [] {
      UnseenHasNone(ps[..|ps| - 1], m);
    }
  }

  /** Groups seen earlier start earlier. */
  lemma {:induction false} SeenInOrder(ps: seq<Prefix>, a: nat, b: nat)
    requires Ordered(ps) && a < b < |FirstSeen(ps)|
    ensures var keys := FirstSeen(ps);
      && WithLength(ps, keys[a]) != [] && WithLength(ps, keys[b]) != []
      && Before(WithLength(ps, keys[a])[0], WithLength(ps, keys[b])[0])
  {
    hide Before, Prefix.Valid;
    var n := |ps| - 1;
    var keys := FirstSeen(ps);
    var seen := FirstSeen(ps[..n]);
    SeenHasEntry(ps[..n], keys[a]);
    if b < |seen| {
      SeenHasEntry(ps[..n], keys[b]);
      SeenInOrder(ps[..n], a, b);
    } else {
      UnseenHasNone(ps[..n], ps[n].plen);
      assert WithLength(ps[..n], keys[a])[0] in ps[..n];
    }
  }

  /** No group seen before one that holds the query lies above it. */
  lemma {:induction false} SeenBeforeHolder(ps: seq<Prefix>, table: map<nat, seq<Prefix>>, a: nat, b: nat, x: Prefix)
    requires Canonical(ps) && Indexes(table, ps) && x.Valid() && a < b < |FirstSeen(ps)|
    requires Lists(FirstSeen(ps), table) && FirstSeen(ps)[b] <= x.plen && Member(table[FirstSeen(ps)[b]], x)
    ensures FirstSeen(ps)[a] in table && !Above(table[FirstSeen(ps)[a]], x)
  {
    hide WithLength, NoSiblings, Member, Pow2;
    HolderIsNotAbove(ps, table, FirstSeen(ps)[b], x);
    SeenInOrder(ps, a, b);
    assert FirstSeen(ps)[a] in FirstSeen(ps);
  }

  lemma {:induction false} FindsInOrder(keys: seq<nat>, b: nat, table: map<nat, seq<Prefix>>, x: Prefix)
    requires b < |keys| && keys[b] <= x.plen && forall m | m in keys :: m in table
    requires Member(table[keys[b]], x)
    requires forall a | 0 <= a <= b :: !Above(table[keys[a]], x)
    ensures Answer(UpTo(keys, x.plen), table, x)
  {
    hide Above, Member;
    assert !Above(table[keys[0]], x);
    var masks := UpTo(keys, x.plen);
    var rest := UpTo(keys[1..], x.plen);
    if b > 0 {
      assert forall a | 0 <= a <= b - 1 :: keys[1..][a] == keys[a + 1];
      FindsInOrder(keys[1..], b - 1, table, x);
      if keys[0] <= x.plen {
        assert masks[0] == keys[0] && masks[1..] == rest;
      } else {
        assert masks == rest;
      }
    } else {
      assert masks[0] == keys[0];
    }
  }

  /** With groups in order of insertion the lookup is exact, whatever the set and query. */
  lemma {:induction false} InsertionOrderIsExact(ps: seq<Prefix>, table: map<nat, seq<Prefix>>, x: Prefix)
    requires Canonical(ps) && Indexes(table, ps) && x.Valid()
    ensures Lists(FirstSeen(ps), table) && Right(FirstSeen(ps), ps, table, x)
  {
    hide *;
    hide WithLength, FirstSeen;
    var keys := FirstSeen(ps);
    SeenLists(ps, table);
    KeysAreListed(keys, table);
    AnswerSound(UpTo(keys, x.plen), ps, table, x);
    MemberByBucket(ps, table, x);
    if Member(ps, x) {
      var m :| m in table && m <= x.plen && Member(table[m], x);
      var b :| 0 <= b < |keys| && keys[b] == m;
      HolderIsNotAbove(ps, table, m, x);
      forall a | 0 <= a <= b ensures !Above(table[keys[a]], x) {
        if a < b {
          SeenBeforeHolder(ps, table, a, b, x);
        }
      }
      FindsInOrder(keys, b, table, x);
    }
    RightIs(keys, ps, table, x);
  }

  lemma {:induction false} KeysAreListed(keys: seq<nat>, table: map<nat, seq<Prefix>>)
    requires Lists(keys, table)
    ensures forall m :: m in keys <==> m in table
  {
  }

  lemma {:induction false} RightIs(keys: seq<nat>, ps: seq<Prefix>, table: map<nat, seq<Prefix>>, x: Prefix)
    requires Lists(keys, table)
    requires forall m | m in UpTo(keys, x.plen) :: m in table
    ensures Right(keys, ps, table, x) == (Answer(UpTo(keys, x.plen), table, x) <==> Member(ps, x))
  {
  }

  // ----------------------------------------------------------------- a missed member

  /** 10.0.0.0/25, 20.0.0.0/24 and the address 10.0.0.1.  A dictionary of CPython 2 keeps
    * two small keys in eight slots, key k in slot k mod 8, and lists the slots in order:
    * 24 comes before 25. */
  const TenNet: Prefix := Prefix(V4, 0x0A00_0000, 25)
  const TwentyNet: Prefix := Prefix(V4, 0x1400_0000, 24)
  const TenOne: Prefix := Prefix(V4, 0x0A00_0001, 32)

  lemma {:induction false} MissedMember()
    ensures
      var ps := [TenNet, TwentyNet];
      var table := map[25 := [TenNet], 24 := [TwentyNet]];
      && Canonical(ps) && Indexes(table, ps) && Lists([24, 25], table) && TenOne.Valid()
      && Member(ps, TenOne) && !Right([24, 25], ps, table, TenOne)
  {
    var p, q := TenNet, TwentyNet;
    var table := map[25 := [p], 24 := [q]];
    MissedCanonical();
    assert [p, q][..1] == [p] && [p, q][0] == p && [p, q][1] == q;
    forall m: nat ensures WithLength([p, q], m) == (if m == 25 then [p] else if m == 24 then [q] else []) {
      assert [p][..0] == [];
      assert WithLength([p], m) == if m == 25 then [p] else [];
    }
    assert Contains([p, q][0], TenOne);
    assert UpTo([24, 25], 32)[0] == 24;
    assert Above(table[24], TenOne);
  }

  lemma {:induction false} MissedCanonical()
    ensures Canonical([TenNet, TwentyNet]) && TenOne.Valid() && Contains(TenNet, TenOne)
  {
    SmallPowers();
    assert Add(TenNet, TwentyNet) == ValueError;
  }

  lemma {:induction false} SmallPowers()
    ensures Pow2(0) == 1 && Pow2(7) == 128 && Pow2(8) == 256 && Pow2(32) == 0x1_0000_0000
  {
    assert Pow2(4) == 16;
    Pow2Add(4, 4);
    Pow2Add(4, 3);
    Pow2Add(8, 8);
    Pow2Add(16, 16);
  }
}
