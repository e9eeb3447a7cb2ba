/** Parsing a text of a value, whatever its blanks, builds that value; so does printing the
  * value and parsing what was printed.
  *
  * Holds reads a node the way a caller of the library does: through the kind, the
  * length, the child pointers, the key pointers and the bytes they point to.
  */
module JsonTree {
  import opened Options
  import opened JsonMachine
  import opened JsonPrint
  import opened JsonSpacing
  import opened JsonRoundTrip
  import T = JsonTwoPass

  function Text(s: string): seq<Option<char>> {
    Somes(s) + [Some(NUL)]
  }

  /** The key block of an object: every key, each with its NUL, in order. */
  predicate HoldsKeys(n: Node, members: seq<Member>)
  {
    && |n.names| == |members| && |n.mem| == KeyBytes(members, |members|)
    && forall k: nat | k < |members| :: HoldsKey(n, members, k)
  }

  predicate HoldsKey(n: Node, members: seq<Member>, k: nat)
    requires k < |members| == |n.names| && |n.mem| == KeyBytes(members, |members|)
  {
    KeyBytesGrow(members, k + 1, |members|);
    && n.names[k] == Some(KeyBytes(members, k))
    && n.mem[KeyBytes(members, k)..KeyBytes(members, k + 1)] == Text(members[k].key)
  }

  /** Node at holds v, and every node below it what v has there. */
  ghost predicate Holds(nodes: seq<Node>, at: nat, v: Json, parent: Option<nat>)
    decreases v
  {
    at < |nodes| && nodes[at].parent == parent &&
    var n := nodes[at];
    match v
    case JNull => n.kind == KNull
    case JBool(b) => n.kind == KBoolean && n.truth == b
    case JInt(i) => n.kind == KInteger && n.num == i
    case JStr(s) => n.kind == KString && n.length == |s| && n.mem == Text(s)
    case JArr(items) =>
      && n.kind == KArray && n.length == |items| == |n.values|
      && forall k: nat | k < |items| :: n.values[k].Some? && Holds(nodes, n.values[k].value, items[k], Some(at))
    case JObj(members) =>
      && n.kind == KObject && n.length == |members| == |n.values| && HoldsKeys(n, members)
      && forall k: nat | k < |members| ::
           n.values[k].Some? && Holds(nodes, n.values[k].value, members[k].value, Some(at))
  }

  /** Every object has a table whose size fits an int. */
  predicate Narrow(v: Json) {
    match v
    case JArr(items) => forall k | 0 <= k < |items| :: Narrow(items[k])
    case JObj(members) =>
      |members| < MAX_MEMBERS && forall k | 0 <= k < |members| :: Narrow(members[k].value)
    case _ => true
  }

  // ------------------------------------------------------- the nodes hold the value

  lemma {:induction false} ArrValues(items: seq<Json>, parent: Option<nat>, base: nat, j: nat)
    requires j <= |items|
    ensures var n := ArrNode(false, items, parent, base, j);
      && n.kind == KArray && n.parent == parent && n.length == j && |n.values| == |items|
      && forall k: nat | k < j :: n.values[k] == Some(base + 1 + CountUpTo(items, k))
    decreases j
  {
    if j > 0 {
      ArrValues(items, parent, base, j - 1);
    }
  }

  lemma {:induction false} WriteKey(mem: seq<Option<char>>, pos: nat, key: string)
    requires pos + |key| + 1 <= |mem|
    ensures var m := Write(Write(mem, pos, key), pos + |key|, [NUL]);
      && |m| == |mem| && m[..pos] == mem[..pos] && m[pos..pos + |key| + 1] == Text(key)
  {
    var m1 := Write(mem, pos, key);
    var m := Write(m1, pos + |key|, [NUL]);
    assert m1[..pos] == mem[..pos] && m1[pos..pos + |key|] == Somes(key);
    assert m[..pos + |key|] == m1[..pos + |key|];
    assert m[..pos] == m1[..pos];
    assert m[pos..pos + |key|] == m1[pos..pos + |key|];
    assert m[pos + |key|] == Some(NUL);
    assert m[pos..pos + |key| + 1] == m[pos..pos + |key|] + [m[pos + |key|]];
  }

  /** The first j keys are stored. */
  predicate KeysStored(n: Node, members: seq<Member>, j: nat)
    requires j <= |members|
  {
    && |n.names| == |members| && |n.mem| == KeyBytes(members, |members|)
    && forall k: nat | k < j :: HoldsKey(n, members, k)
  }

  lemma {:induction false} StoresOneMore(n: Node, members: seq<Member>, j: nat)
    requires j < |members| && KeysStored(n, members, j) && n.length == j && n.memPos == KeyBytes(members, j)
    ensures KeysStored(Keyed(false, n, members[j].key), members, j + 1)
  {
    hide Write;
    var key := members[j].key;
    KeyBytesGrow(members, j + 1, |members|);
    var m := Keyed(false, n, key);
    WriteKey(n.mem, n.memPos, key);
    forall k: nat | k < j + 1 ensures HoldsKey(m, members, k) {
      if k < j {
        assert HoldsKey(n, members, k);
        KeyBytesGrow(members, k + 1, j);
        OldKeyStays(n, m, members, k, n.memPos);
      }
    }
  }

  lemma {:induction false} OldKeyStays(n: Node, m: Node, members: seq<Member>, k: nat, pos: nat)
    requires k < |members| == |n.names| == |m.names| && |n.mem| == |m.mem| == KeyBytes(members, |members|)
    requires HoldsKey(n, members, k) && KeyBytes(members, k + 1) <= pos <= |n.mem|
    requires m.names[k] == n.names[k] && m.mem[..pos] == n.mem[..pos]
    ensures HoldsKey(m, members, k)
  {
    hide KeyBytes;
    KeyBytesGrow(members, k, k + 1);
    SamePart(n.mem, m.mem, KeyBytes(members, k), KeyBytes(members, k + 1), pos);
  }

  lemma {:induction false} SamePart(a: seq<Option<char>>, b: seq<Option<char>>, i: nat, j: nat, n: nat)
    requires i <= j <= n <= |a| && n <= |b| && a[..n] == b[..n]
    ensures a[i..j] == b[i..j]
  {
    forall k | i <= k < j ensures a[k] == b[k] {
      assert a[k] == a[..n][k] && b[k] == b[..n][k];
    }
  }

  lemma {:induction false} ObjValues(members: seq<Member>, parent: Option<nat>, base: nat, j: nat)
    requires j <= |members| < MAX_MEMBERS
    ensures var n := ObjNode(false, members, parent, base, j);
      && n.kind == KObject && n.parent == parent && n.length == j && |n.values| == |members|
      && KeysStored(n, members, j)
      && forall k: nat | k < j :: n.values[k] == Some(base + 1 + MCountUpTo(members, k))
    decreases j
  {
    hide KeysStored, Keyed, Link;
    if j == 0 {
      NoKeysYet(members, parent);
    } else {
      ObjValues(members, parent, base, j - 1);
      ObjNodeFacts(false, members, parent, base, j - 1);
      var n := ObjNode(false, members, parent, base, j - 1);
      StoresOneMore(n, members, j - 1);
      KeyedRest(n, members[j - 1].key);
      var m := Keyed(false, n, members[j - 1].key);
      LinkKeepsKeys(m, base + 1 + MCountUpTo(members, j - 1), members, j);
    }
  }

  lemma {:induction false} NoKeysYet(members: seq<Member>, parent: Option<nat>)
    requires |members| < MAX_MEMBERS
    ensures KeysStored(Begin(false, JObj(members), parent), members, 0)
  {
  }

  lemma {:induction false} KeyedRest(n: Node, key: string)
    ensures var m := Keyed(false, n, key);
      m.kind == n.kind && m.parent == n.parent && m.length == n.length && m.values == n.values
  {
  }

  lemma {:induction false} LinkKeepsKeys(n: Node, child: nat, members: seq<Member>, j: nat)
    requires j <= |members| && KeysStored(n, members, j) && n.length < |n.values|
    ensures var m := Link(false, n, child);
      && KeysStored(m, members, j)
      && m.kind == n.kind && m.parent == n.parent && m.length == n.length + 1
      && m.values == n.values[n.length := Some(child)]
  {
    var m := Link(false, n, child);
    forall k: nat | k < j ensures HoldsKey(m, members, k) {
      assert HoldsKey(n, members, k);
    }
  }

  lemma {:induction false} StringHolds(s: string, parent: Option<nat>)
    ensures var n := StringNode(false, s, parent);
      n.kind == KString && n.parent == parent && n.length == |s| && n.mem == Text(s)
  {
    hide Write;
    var n := Begin(false, JStr(s), parent);
    WriteKey(n.mem, 0, s);
    var m := StringNode(false, s, parent);
    assert m.mem[0..|s| + 1] == m.mem;
  }

  /** The nodes of v stand at base. */
  predicate StandsAt(nodes: seq<Node>, base: nat, v: Json, parent: Option<nat>) {
    base + Count(v) <= |nodes| && nodes[base..base + Count(v)] == Region(false, v, parent, base)
  }

  lemma {:induction false} PartStands(nodes: seq<Node>, base: nat, r: seq<Node>, a: nat, v: Json, parent: Option<nat>)
    requires base + |r| <= |nodes| && nodes[base..base + |r|] == r && a + Count(v) <= |r|
    requires r[a..a + Count(v)] == Region(false, v, parent, base + a)
    ensures StandsAt(nodes, base + a, v, parent)
  {
    hide Region;
    SubSlice(nodes, base, base + |r|, a, a + Count(v));
  }

  lemma {:induction false} SubSlice(nodes: seq<Node>, lo: nat, hi: nat, a: nat, b: nat)
    requires lo <= hi <= |nodes| && a <= b <= hi - lo
    ensures nodes[lo..hi][a..b] == nodes[lo + a..lo + b]
  {
    var part := nodes[lo..hi];
    forall k | 0 <= k < b - a ensures part[a..b][k] == nodes[lo + a..lo + b][k] {
      assert part[a..b][k] == part[a + k] == nodes[lo + a + k];
    }
  }

  lemma {:induction false} ItemStands(nodes: seq<Node>, base: nat, items: seq<Json>, parent: Option<nat>, k: nat)
    requires StandsAt(nodes, base, JArr(items), parent) && k < |items|
    ensures StandsAt(nodes, base + 1 + CountUpTo(items, k), items[k], Some(base))
  {
    hide Region, CountUpTo, Count;
    ItemRegion(false, items, parent, base, k);
    PartStands(nodes, base, Region(false, JArr(items), parent, base), 1 + CountUpTo(items, k), items[k], Some(base));
  }

  lemma {:induction false} MemberStands(nodes: seq<Node>, base: nat, members: seq<Member>, parent: Option<nat>, k: nat)
    requires StandsAt(nodes, base, JObj(members), parent) && k < |members|
    ensures StandsAt(nodes, base + 1 + MCountUpTo(members, k), members[k].value, Some(base))
  {
    hide Region, MCountUpTo, Count;
    MemberRegion(false, members, parent, base, k);
    PartStands(nodes, base, Region(false, JObj(members), parent, base), 1 + MCountUpTo(members, k),
               members[k].value, Some(base));
  }

  lemma {:induction false} RegionHolds(nodes: seq<Node>, base: nat, v: Json, parent: Option<nat>)
    requires StandsAt(nodes, base, v, parent) && Narrow(v)
    ensures Holds(nodes, base, v, parent)
    decreases v
  {
    hide StringNode, ArrNode, ObjNode, Region, HoldsKey, HoldsKeys, StandsAt, CountUpTo, MCountUpTo, KeysStored;
    StandsFirst(nodes, base, v, parent);
    match v
    case JStr(s) => StringHolds(s, parent);
    case JArr(items) =>
      ArrValues(items, parent, base, |items|);
      forall k: nat | k < |items|
        ensures Holds(nodes, base + 1 + CountUpTo(items, k), items[k], Some(base))
      {
        ItemStands(nodes, base, items, parent, k);
        RegionHolds(nodes, base + 1 + CountUpTo(items, k), items[k], Some(base));
      }
    case JObj(members) =>
      ObjValues(members, parent, base, |members|);
      KeysAreHeld(nodes[base], members);
      forall k: nat | k < |members|
        ensures Holds(nodes, base + 1 + MCountUpTo(members, k), members[k].value, Some(base))
      {
        MemberStands(nodes, base, members, parent, k);
        RegionHolds(nodes, base + 1 + MCountUpTo(members, k), members[k].value, Some(base));
      }
    case _ =>
  }

  lemma {:induction false} StandsFirst(nodes: seq<Node>, base: nat, v: Json, parent: Option<nat>)
    requires StandsAt(nodes, base, v, parent)
    ensures base < |nodes| && nodes[base] == Root(false, v, parent, base)
  {
    hide Root;
    assert nodes[base] == nodes[base..base + Count(v)][0];
  }

  lemma {:induction false} KeysAreHeld(n: Node, members: seq<Member>)
    requires KeysStored(n, members, |members|)
    ensures HoldsKeys(n, members)
  {
    hide HoldsKey;
  }

  // ------------------------------------------------------------------ whole texts

  /** The first token of the text of v, and what follows its last. */
  lemma {:induction false} SpelledFacts(text: string, v: Json)
    requires Spelled(text, v)
    ensures Printable(v) && NoNul(text) && EndOf(text, Past(text, 0), v).Some?
    ensures var e := EndOf(text, Past(text, 0), v).value;
      e <= |text| && Past(text, e) == |text| && !T.Numeric(At(text, e))
  {
    hide EndOf;
    var e := EndOf(text, Past(text, 0), v).value;
    assert e < |text| ==> text[e..Past(text, e)][0] == text[e];
  }

  /** One pass over a text of v. */
  lemma {:induction false} WholePass(first: bool, text: string, v: Json, pool: seq<Node>)
    requires Spelled(text, v)
    requires !first ==> PoolHas(pool, Region(true, v, None, 0)) && T.AllFit(Region(true, v, None, 0))
    ensures NoNul(text) && Run(first, text, Start(pool)) == Accepted(Region(first, v, None, 0))
  {
    hide *;
    SpelledFacts(text, v);
    var e := EndOf(text, Past(text, 0), v).value;
    StartIs(pool);
    SkipsGap(first, text, Start(pool));
    var s := Start(pool).(i := Past(text, 0));
    StartsDue(first, text, v, pool);
    IsReady(first, text, s, v, e);
    ParsesValue(first, text, s, v, e);
    CompletesRoot(first, s, v, e);
    var done := Before(first, s, v, e).(f := QUIET.(needComma := true, done := true));
    BeforeIs(first, s, v, e);
    GoesOn(first, text, s, v, e, done);
    DoneIs();
    SkipsRest(first, text, done);
    EndsRun(first, text, done.(i := |text|));
    assert [] + Region(first, v, None, 0) == Region(first, v, None, 0);
  }

  lemma {:induction false} StartIs(pool: seq<Node>)
    ensures var s := Start(pool);
      s.i == 0 && s.f == SEEK && s.slen == 0 && s.top == None && s.built == [] && s.pool == pool
    ensures !SEEK.done && !SEEK.inString && SEEK.seekValue
  {
  }

  lemma {:induction false} DoneIs()
    ensures QUIET.(needComma := true, done := true).done && !QUIET.(needComma := true, done := true).inString
  {
  }

  lemma {:induction false} StartsDue(first: bool, text: string, v: Json, pool: seq<Node>)
    requires Spelled(text, v) && (!first ==> PoolHas(pool, Region(true, v, None, 0)))
    ensures NoNul(text) && Printable(v) && EndOf(text, Past(text, 0), v).Some?
    ensures Due(first, text, Start(pool).(i := Past(text, 0)), v, EndOf(text, Past(text, 0), v).value)
    ensures !first ==> Count(v) <= |pool|
  {
    hide Region, EndOf, Past, Printable;
    SpelledFacts(text, v);
  }

  lemma {:induction false} CompletesRoot(first: bool, s: State, v: Json, e: nat)
    requires s.top.None? && (!first ==> Count(v) <= |s.pool|)
    ensures Complete(first, Before(first, s, v, e))
      == Go(Before(first, s, v, e).(f := QUIET.(needComma := true, done := true)))
  {
    hide Region, Root;
    RootFacts(first, v, None, |s.built|);
  }

  /** Behind the root only blanks may follow. */
  lemma {:induction false} SkipsRest(first: bool, text: string, s: State)
    requires NoNul(text) && s.i <= |text| && s.f.done && !s.f.inString && Past(text, s.i) == |text|
    ensures Run(first, text, s) == Run(first, text, s.(i := |text|))
    decreases |text| - s.i
  {
    hide Rank;
    if s.i < |text| {
      StepProgress(first, text, s);
      assert Step(first, text, s) == Go(s.(i := s.i + 1));
      SkipsRest(first, text, s.(i := s.i + 1));
    } else {
      assert s.(i := |text|) == s;
    }
  }

  lemma {:induction false} EndsRun(first: bool, text: string, s: State)
    requires NoNul(text) && s.i == |text| && s.f.done
    ensures Run(first, text, s) == Accepted(s.built)
  {
    hide Rank;
    StepProgress(first, text, s);
  }

  lemma {:induction false} FitConcat(a: seq<Node>, b: seq<Node>)
    ensures T.AllFit(a + b) <==> T.AllFit(a) && T.AllFit(b)
  {
    if T.AllFit(a + b) {
      forall k: nat | k < |a| ensures TableFits(a[k]) {
        assert TableFits((a + b)[k]);
      }
      forall k: nat | k < |b| ensures TableFits(b[k]) {
        assert TableFits((a + b)[|a| + k]);
      }
    }
  }

  lemma {:induction false} FitRoot(n: Node)
    ensures T.AllFit([n]) <==> TableFits(n)
  {
    assert [n][0] == n;
  }

  /** The nodes measured for a value all have tables that fit exactly when it is narrow. */
  lemma {:induction false} NarrowIff(v: Json, parent: Option<nat>, base: nat)
    ensures T.AllFit(Region(true, v, parent, base)) <==> Narrow(v)
    decreases v, 0
  {
    hide Root, T.AllFit, Kids, MKids;
    var root := Root(true, v, parent, base);
    RootFacts(true, v, parent, base);
    FitRoot(root);
    match v
    case JArr(items) =>
      FitConcat([root], Kids(true, items, base, |items|));
      KidsNarrowIff(items, base, |items|);
    case JObj(members) =>
      FitConcat([root], MKids(true, members, base, |members|));
      MKidsNarrowIff(members, base, |members|);
    case _ =>
  }

  lemma {:induction false} KidsNarrowIff(items: seq<Json>, base: nat, j: nat)
    requires j <= |items|
    ensures T.AllFit(Kids(true, items, base, j)) <==> forall k | 0 <= k < j :: Narrow(items[k])
    decreases items, j
  {
    hide T.AllFit, Narrow, Kids;
    if j == 0 {
      assert T.AllFit(Kids(true, items, base, 0)) by { NoneFit(); NoKids(items, base); }
    } else {
      KidsNarrowIff(items, base, j - 1);
      NarrowIff(items[j - 1], Some(base), base + 1 + CountUpTo(items, j - 1));
      KidsStep(true, items, base, j - 1);
      FitConcat(Kids(true, items, base, j - 1),
                Region(true, items[j - 1], Some(base), base + 1 + CountUpTo(items, j - 1)));
    }
  }

  lemma {:induction false} MKidsNarrowIff(members: seq<Member>, base: nat, j: nat)
    requires j <= |members|
    ensures T.AllFit(MKids(true, members, base, j)) <==> forall k | 0 <= k < j :: Narrow(members[k].value)
    decreases members, j
  {
    hide T.AllFit, Narrow, MKids;
    if j == 0 {
      assert T.AllFit(MKids(true, members, base, 0)) by { NoneFit(); NoMKids(members, base); }
    } else {
      MKidsNarrowIff(members, base, j - 1);
      var v := members[j - 1].value;
      NarrowIff(v, Some(base), base + 1 + MCountUpTo(members, j - 1));
      MKidsStep(true, members, base, j - 1);
      FitConcat(MKids(true, members, base, j - 1), Region(true, v, Some(base), base + 1 + MCountUpTo(members, j - 1)));
    }
  }

  lemma {:induction false} NoneFit()
    ensures T.AllFit([])
  {
  }

  lemma {:induction false} NoKids(items: seq<Json>, base: nat)
    ensures Kids(true, items, base, 0) == []
  {
  }

  lemma {:induction false} NoMKids(members: seq<Member>, base: nat)
    ensures MKids(true, members, base, 0) == []
  {
  }

  /** Any text of a printable value is accepted exactly when every object has fewer than
    * 2^27 members, and then the tree it yields holds that value: same shape, same order,
    * same keys, same bytes, same numbers. */
  lemma {:induction false} SpelledParse(text: string, v: Json)
    requires Spelled(text, v)
    ensures NoNul(text)
    ensures Parse(text).Accepted? <==> Narrow(v)
    ensures Narrow(v) ==> |Parse(text).nodes| == Count(v) && Holds(Parse(text).nodes, 0, v, None)
  {
    hide Spelled, Region, Root, Holds, Run, Narrow, T.AllFit, T.Sound, T.Filled;
    var measured := Region(true, v, None, 0);
    WholePass(true, text, v, []);
    NarrowIff(v, None, 0);
    T.SecondPassIsSafe(text);
    if Narrow(v) {
      WholePass(false, text, v, measured);
      RegionHolds(Region(false, v, None, 0), 0, v, None);
    }
  }

  /** In particular with any blanks before, between and behind the tokens of the value. */
  lemma {:induction false} SpacedParse(v: Json, gaps: seq<string>)
    requires Printable(v) && |gaps| == |Tokens(v)| + 1 && forall g | g in gaps :: AllSpace(g)
    ensures var text := Woven(Tokens(v), gaps);
      && NoNul(text)
      && (Parse(text).Accepted? <==> Narrow(v))
      && (Narrow(v) ==> |Parse(text).nodes| == Count(v) && Holds(Parse(text).nodes, 0, v, None))
  {
    hide *;
    WovenIsSpelled(v, gaps);
    SpelledParse(Woven(Tokens(v), gaps), v);
  }

  /** ... and with none, as the value is printed. */
  lemma {:induction false} PrintThenParse(v: Json)
    requires Printable(v)
    ensures NoNul(Str(v))
    ensures Parse(Str(v)).Accepted? <==> Narrow(v)
    ensures Narrow(v) ==> |Parse(Str(v)).nodes| == Count(v) && Holds(Parse(Str(v)).nodes, 0, v, None)
  {
    hide *;
    StrIsWoven(v);
    SpelledParse(Str(v), v);
  }

  // ---------------------------------------------------------------- what one tree holds

  lemma {:induction false} TextIsInjective(s: string, t: string)
    requires Text(s) == Text(t)
    ensures s == t
  {
    assert |s| == |Text(s)| - 1 && |t| == |Text(t)| - 1;
    forall k | 0 <= k < |s| ensures s[k] == t[k] {
      assert Text(s)[k] == Some(s[k]) && Text(t)[k] == Some(t[k]);
    }
  }

  lemma {:induction false} SameKey(n: Node, a: seq<Member>, b: seq<Member>, k: nat)
    requires HoldsKeys(n, a) && HoldsKeys(n, b) && k < |a|
    ensures |b| == |a| && a[k].key == b[k].key
  {
    hide KeyBytes;
    assert HoldsKey(n, a, k) && HoldsKey(n, b, k);
    if k + 1 < |a| {
      assert HoldsKey(n, a, k + 1) && HoldsKey(n, b, k + 1);
    }
    assert KeyBytes(a, k + 1) == KeyBytes(b, k + 1);
    TextIsInjective(a[k].key, b[k].key);
  }

  /** A node holds at most one value. */
  lemma {:induction false} HoldsOneValue(nodes: seq<Node>, at: nat, v: Json, w: Json, parent: Option<nat>)
    requires Holds(nodes, at, v, parent) && Holds(nodes, at, w, parent)
    ensures v == w
    decreases v
  {
    hide HoldsKeys;
    match v
    case JStr(s) => TextIsInjective(s, w.s);
    case JArr(items) =>
      forall k: nat | k < |items| ensures items[k] == w.items[k] {
        HoldsOneValue(nodes, nodes[at].values[k].value, items[k], w.items[k], Some(at));
      }
      assert items == w.items;
    case JObj(members) =>
      forall k: nat | k < |members| ensures members[k] == w.members[k] {
        SameKey(nodes[at], members, w.members, k);
        HoldsOneValue(nodes, nodes[at].values[k].value, members[k].value, w.members[k].value, Some(at));
      }
      assert members == w.members;
    case _ =>
  }

  /** The bytes from a position up to the first NUL, as strlen sees them. */
  function CString(mem: seq<Option<char>>, pos: nat): string
    requires pos <= |mem|
    decreases |mem| - pos
  {
    if pos == |mem| || mem[pos] == None || mem[pos].value == NUL then []
    else [mem[pos].value] + CString(mem, pos + 1)
  }

  lemma {:induction false} CStringOf(mem: seq<Option<char>>, pos: nat, key: string)
    requires pos + |key| + 1 <= |mem| && mem[pos..pos + |key| + 1] == Text(key)
    ensures CString(mem, pos) == key <==> NoNul(key)
    ensures CString(mem, pos) <= key
    decreases key
  {
    var part := mem[pos..pos + |key| + 1];
    assert part[0] == mem[pos];
    if key != "" {
      assert mem[pos] == Some(key[0]);
      assert mem[pos + 1..pos + 1 + |key[1..]| + 1] == part[1..] == Text(key[1..]);
      CStringOf(mem, pos + 1, key[1..]);
      assert NoNul(key) <==> key[0] != NUL && NoNul(key[1..]) by {
        assert key == [key[0]] + key[1..];
        NoNulConcat([key[0]], key[1..]);
      }
    }
  }

  /** Keys carry no length, so a caller reads them up to the first NUL: the key that was
    * printed comes back exactly when it has none, and a prefix of it otherwise. */
  lemma {:induction false} KeyReadsBackIff(n: Node, members: seq<Member>, k: nat)
    requires HoldsKeys(n, members) && k < |members|
    ensures n.names[k].Some? && n.names[k].value <= |n.mem|
    ensures CString(n.mem, n.names[k].value) <= members[k].key
    ensures CString(n.mem, n.names[k].value) == members[k].key <==> NoNul(members[k].key)
  {
    assert HoldsKey(n, members, k);
    KeyBytesGrow(members, k + 1, |members|);
    CStringOf(n.mem, KeyBytes(members, k), members[k].key);
  }
}
