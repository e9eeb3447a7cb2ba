/** Both passes of the parser over the text of a value, with any blanks in it.
  *
  * Region describes, pass by pass, the nodes the parser should end up with for a value:
  * its own node followed by those of its members, each child linked by its index.  The
  * main result, ParsesValue, says that either pass, about to read the text of a value
  * anywhere in a larger text, ends up with exactly these nodes and goes on behind it.  For
  * the second pass the nodes measured must be those of the value, with tables that fit.
  */
module JsonRoundTrip {
  import opened Options
  import opened JsonMachine
  import opened JsonPrint
  import opened JsonSpacing
  import T = JsonTwoPass

  // -------------------------------------------------- the nodes a value stands for

  function Count(v: Json): (n: nat)
    ensures n >= 1
    decreases v, 0
  {
    match v
    case JArr(items) => 1 + CountUpTo(items, |items|)
    case JObj(members) => 1 + MCountUpTo(members, |members|)
    case _ => 1
  }

  function CountUpTo(items: seq<Json>, j: nat): nat
    requires j <= |items|
    decreases items, j
  {
    if j == 0 then 0 else CountUpTo(items, j - 1) + Count(items[j - 1])
  }

  function MCountUpTo(members: seq<Member>, j: nat): nat
    requires j <= |members|
    decreases members, j
  {
    if j == 0 then 0 else MCountUpTo(members, j - 1) + Count(members[j - 1].value)
  }

  function KeyBytes(members: seq<Member>, j: nat): nat
    requires j <= |members|
  {
    if j == 0 then 0 else KeyBytes(members, j - 1) + |members[j - 1].key| + 1
  }

  /** A value's own node after the first pass. */
  function Measured(v: Json, parent: Option<nat>): Node {
    match v
    case JNull => Fresh(KNull, parent)
    case JBool(b) => Fresh(KBoolean, parent).(truth := b)
    case JInt(_) => Fresh(KInteger, parent)
    case JStr(s) => Fresh(KString, parent).(length := |s|)
    case JArr(items) => Fresh(KArray, parent).(length := |items|)
    case JObj(members) => Fresh(KObject, parent).(length := |members|, keyBytes := KeyBytes(members, |members|))
  }

  /** ... and as each pass begins with it. */
  function Begin(first: bool, v: Json, parent: Option<nat>): Node {
    if first then Fresh(Measured(v, parent).kind, parent) else Prepare(Measured(v, parent))
  }

  /** One more member: what Complete does to the parent. */
  function Link(first: bool, n: Node, child: nat): Node {
    n.(length := n.length + 1,
       values := if first || n.length >= |n.values| then n.values else n.values[n.length := Some(child)])
  }

  /** One more key. */
  function Keyed(first: bool, n: Node, key: string): Node {
    if first then n.(keyBytes := n.keyBytes + |key| + 1)
    else if n.memPos + |key| + 1 <= |n.mem| && n.length < |n.names| then
      n.(mem := Write(Write(n.mem, n.memPos, key), n.memPos + |key|, [NUL]),
         names := n.names[n.length := Some(n.memPos)],
         memPos := n.memPos + |key| + 1)
    else n
  }

  function ArrNode(first: bool, items: seq<Json>, parent: Option<nat>, base: nat, j: nat): Node
    requires j <= |items|
    decreases j
  {
    if j == 0 then Begin(first, JArr(items), parent)
    else Link(first, ArrNode(first, items, parent, base, j - 1), base + 1 + CountUpTo(items, j - 1))
  }

  function ObjNode(first: bool, members: seq<Member>, parent: Option<nat>, base: nat, j: nat): Node
    requires j <= |members|
    decreases j
  {
    if j == 0 then Begin(first, JObj(members), parent)
    else Link(first, Keyed(first, ObjNode(first, members, parent, base, j - 1), members[j - 1].key),
              base + 1 + MCountUpTo(members, j - 1))
  }

  function StringNode(first: bool, s: string, parent: Option<nat>): Node {
    if first then Measured(JStr(s), parent)
    else
      var n := Begin(false, JStr(s), parent);
      n.(length := |s|, mem := Write(Write(n.mem, 0, s), |s|, [NUL]))
  }

  /** A value's own node after a pass; base is its index. */
  function Root(first: bool, v: Json, parent: Option<nat>, base: nat): Node {
    match v
    case JNull => Begin(first, v, parent)
    case JBool(b) => Begin(first, v, parent).(truth := b)
    case JInt(n) => if first then Begin(first, v, parent) else Begin(first, v, parent).(num := n)
    case JStr(s) => StringNode(first, s, parent)
    case JArr(items) => ArrNode(first, items, parent, base, |items|)
    case JObj(members) => ObjNode(first, members, parent, base, |members|)
  }

  /** All nodes of a value, in creation order. */
  function Region(first: bool, v: Json, parent: Option<nat>, base: nat): (r: seq<Node>)
    ensures |r| == Count(v) && r[0] == Root(first, v, parent, base)
    decreases v, 0
  {
    match v
    case JArr(items) => [Root(first, v, parent, base)] + Kids(first, items, base, |items|)
    case JObj(members) => [Root(first, v, parent, base)] + MKids(first, members, base, |members|)
    case _ => [Root(first, v, parent, base)]
  }

  function Kids(first: bool, items: seq<Json>, base: nat, j: nat): (r: seq<Node>)
    requires j <= |items|
    ensures |r| == CountUpTo(items, j)
    decreases items, j
  {
    if j == 0 then []
    else Kids(first, items, base, j - 1) +
         Region(first, items[j - 1], Some(base), base + 1 + CountUpTo(items, j - 1))
  }

  function MKids(first: bool, members: seq<Member>, base: nat, j: nat): (r: seq<Node>)
    requires j <= |members|
    ensures |r| == MCountUpTo(members, j)
    decreases members, j
  {
    if j == 0 then []
    else MKids(first, members, base, j - 1) +
         Region(first, members[j - 1].value, Some(base), base + 1 + MCountUpTo(members, j - 1))
  }

  // ------------------------------------------------------------ facts about nodes

  lemma {:induction false} ArrNodeFacts(first: bool, items: seq<Json>, parent: Option<nat>, base: nat, j: nat)
    requires j <= |items|
    ensures var n := ArrNode(first, items, parent, base, j);
      && n.kind == KArray && n.parent == parent && n.length == j
      && (first ==> n == Fresh(KArray, parent).(length := j))
      && (!first ==> |n.values| == |items|)
    decreases j
  {
    if j > 0 {
      ArrNodeFacts(first, items, parent, base, j - 1);
    }
  }

  lemma {:induction false} KeyBytesGrow(members: seq<Member>, j: nat, k: nat)
    requires j <= k <= |members|
    ensures KeyBytes(members, j) + (k - j) <= KeyBytes(members, k)
    decreases k
  {
    if j < k {
      KeyBytesGrow(members, j, k - 1);
    }
  }

  lemma {:induction false} KeysHaveRoom(members: seq<Member>, parent: Option<nat>)
    ensures TableRoom(|members|) > 0 ==>
      KeyRoom(Measured(JObj(members), parent)) == KeyBytes(members, |members|)
    ensures |members| < MAX_MEMBERS ==> TableRoom(|members|) == |members|
  {
    if |members| < MAX_MEMBERS {
      FittingTable(Measured(JObj(members), parent));
    }
  }

  lemma {:induction false} ObjNodeFacts(first: bool, members: seq<Member>, parent: Option<nat>, base: nat, j: nat)
    requires j <= |members|
    ensures var n := ObjNode(first, members, parent, base, j);
      && n.kind == KObject && n.parent == parent && n.length == j
      && (first ==> n == Fresh(KObject, parent).(length := j, keyBytes := KeyBytes(members, j)))
      && (!first && j <= TableRoom(|members|) ==>
            && |n.values| == |n.names| == TableRoom(|members|)
            && |n.mem| == KeyRoom(Measured(JObj(members), parent)) && n.memPos == KeyBytes(members, j))
    decreases j
  {
    hide TableRoom, KeyRoom, Write;
    if j > 0 {
      KeysHaveRoom(members, parent);
      ObjNodeFacts(first, members, parent, base, j - 1);
      KeyBytesGrow(members, j, |members|);
    }
  }

  lemma {:induction false} RootFacts(first: bool, v: Json, parent: Option<nat>, base: nat)
    ensures Root(first, v, parent, base).parent == parent
    ensures Root(first, v, parent, base).kind == Measured(v, parent).kind
    ensures first ==> Root(first, v, parent, base) == Measured(v, parent)
  {
    hide Write;
    match v
    case JArr(items) => ArrNodeFacts(first, items, parent, base, |items|);
    case JObj(members) => ObjNodeFacts(first, members, parent, base, |members|);
    case _ =>
  }

  lemma {:induction false} KidsSlice(first: bool, items: seq<Json>, base: nat, j: nat, n: nat)
    requires j < n <= |items|
    ensures CountUpTo(items, j) + Count(items[j]) <= CountUpTo(items, n)
    ensures Kids(first, items, base, n)[CountUpTo(items, j)..][..Count(items[j])]
      == Region(first, items[j], Some(base), base + 1 + CountUpTo(items, j))
    decreases n
  {
    hide Region;
    if j < n - 1 {
      KidsSlice(first, items, base, j, n - 1);
      var a := Kids(first, items, base, n - 1);
      var b := Region(first, items[n - 1], Some(base), base + 1 + CountUpTo(items, n - 1));
      SliceOfConcat(a, b, CountUpTo(items, j), Count(items[j]));
    } else {
      var a := Kids(first, items, base, j);
      var b := Region(first, items[j], Some(base), base + 1 + CountUpTo(items, j));
      assert (a + b)[|a|..] == b;
    }
  }

  lemma {:induction false} MKidsSlice(first: bool, members: seq<Member>, base: nat, j: nat, n: nat)
    requires j < n <= |members|
    ensures MCountUpTo(members, j) + Count(members[j].value) <= MCountUpTo(members, n)
    ensures MKids(first, members, base, n)[MCountUpTo(members, j)..][..Count(members[j].value)]
      == Region(first, members[j].value, Some(base), base + 1 + MCountUpTo(members, j))
    decreases n
  {
    hide Region;
    if j < n - 1 {
      MKidsSlice(first, members, base, j, n - 1);
      var a := MKids(first, members, base, n - 1);
      var b := Region(first, members[n - 1].value, Some(base), base + 1 + MCountUpTo(members, n - 1));
      SliceOfConcat(a, b, MCountUpTo(members, j), Count(members[j].value));
    } else {
      var a := MKids(first, members, base, j);
      var b := Region(first, members[j].value, Some(base), base + 1 + MCountUpTo(members, j));
      assert (a + b)[|a|..] == b;
    }
  }

  lemma {:induction false} SliceOfConcat(a: seq<Node>, b: seq<Node>, i: nat, n: nat)
    requires i + n <= |a|
    ensures (a + b)[i..][..n] == a[i..][..n]
  {
  }

  // ------------------------------------------------------------------- characters

  const SEEK := Flags(false, true, false, false, false, false, false, false)
  const WAIT := SEEK.(needComma := true)
  const QUIET := SEEK.(seekValue := false)
  const INSIDE := QUIET.(inString := true)

  /** The second pass has room for the string under way. */
  predicate Room(s: State, n: nat)
    requires s.top.Some? && s.top.value < |s.built|
  {
    StringPos(s) + n <= |s.built[s.top.value].mem|
  }

  function StringPos(s: State): nat
    requires s.top.Some? && s.top.value < |s.built|
  {
    (if s.built[s.top.value].kind.KObject? then s.built[s.top.value].memPos else 0) + s.slen
  }

  /** The state after the characters of str were read inside a string. */
  function AfterChars(first: bool, s: State, str: string, width: nat): State
    requires s.top.Some? && s.top.value < |s.built|
    requires !first ==> Room(s, |str|)
  {
    var t := s.top.value;
    s.(i := s.i + width, slen := s.slen + |str|,
       built := if first then s.built
                else s.built[t := s.built[t].(mem := Write(s.built[t].mem, StringPos(s), str))])
  }

  lemma {:induction false} EscapeDecodes(text: string, i: nat, c: char)
    requires c as int <= 0x7F && Escapable(c) && HasAt(text, i, EscapeChar(c))
    ensures At(text, i) == '\\'
    ensures Decode(text, i + 1) == Unit([c], |EscapeChar(c)| - 1)
  {
    var e := EscapeChar(c);
    HasHead(text, i, e);
    HasHead(text, i + 1, e[1..]);
    if e[1] == 'u' {
      HexDecodes(text, i, c);
    }
  }

  lemma {:induction false} HexDecodes(text: string, i: nat, c: char)
    requires c as int <= 0x7F && HasAt(text, i, EscapeChar(c)) && Escapable(c) && EscapeChar(c)[1] == 'u'
    ensures |EscapeChar(c)| == 6 && At(text, i + 1) == 'u'
    ensures Decode(text, i + 1) == Unit([c], 5)
  {
    var e := EscapeChar(c);
    var d := c as int;
    EscapeForm(c);
    CharOf(text, i, e, 1);
    CharOf(text, i, e, 2);
    CharOf(text, i, e, 3);
    CharOf(text, i, e, 4);
    CharOf(text, i, e, 5);
    HexBack(d / 16);
    HexBack(d % 16);
    assert At(text, i + 2) == '0' && At(text, i + 3) == '0';
    assert At(text, i + 4) == HexDigit(d / 16) && At(text, i + 5) == HexDigit(d % 16);
    assert HexValue('0') == 0;
    assert (d / 16) * 16 + d % 16 == d;
    assert EscapeBytes(0, d) == [c];
  }

  lemma {:induction false} EscapeForm(c: char)
    requires c as int <= 0x7F && Escapable(c) && EscapeChar(c)[1] == 'u'
    ensures EscapeChar(c) == ['\\', 'u', '0', '0', HexDigit(c as int / 16), HexDigit(c as int % 16)]
  {
  }

  lemma {:induction false} CharOf(text: string, i: nat, w: string, k: nat)
    requires HasAt(text, i, w) && k < |w|
    ensures At(text, i + k) == w[k]
  {
    assert text[i..i + |w|][k] == text[i + k];
  }

  lemma {:induction false} HexBack(d: nat)
    requires d < 16
    ensures HexValue(HexDigit(d)) == d
  {
  }

  lemma {:induction false} WriteWrite(mem: seq<Option<char>>, pos: nat, a: string, b: string)
    requires pos + |a| + |b| <= |mem|
    ensures Write(Write(mem, pos, a), pos + |a|, b) == Write(mem, pos, a + b)
  {
    assert Somes(a + b) == Somes(a) + Somes(b);
  }

  lemma {:induction false} WriteNothing(mem: seq<Option<char>>, pos: nat)
    requires pos <= |mem|
    ensures Write(mem, pos, "") == mem
  {
  }

  predicate InsideString(s: State) {
    && s.f == INSIDE && s.top.Some? && s.top.value < |s.built|
    && (s.built[s.top.value].kind.KString? || s.built[s.top.value].kind.KObject?)
  }

  /** Reading one printed character. */
  lemma {:induction false} ParsesChar(first: bool, text: string, s: State, c: char)
    requires NoNul(text) && InsideString(s) && s.slen <= LIMIT && c as int <= 0x7F
    requires HasAt(text, s.i, EscapeChar(c)) && (!first ==> Room(s, 1))
    ensures InsideString(AfterChars(first, s, [c], |EscapeChar(c)|))
    ensures Run(first, text, s) == Run(first, text, AfterChars(first, s, [c], |EscapeChar(c)|))
  {
    hide Write, Decode, Rank;
    var e := EscapeChar(c);
    HasHead(text, s.i, e);
    StepProgress(first, text, s);
    if Escapable(c) {
      EscapeDecodes(text, s.i, c);
      var mid := s.(i := s.i + 1, f := INSIDE.(escaped := true));
      assert Step(first, text, s) == Go(mid);
      StepProgress(first, text, mid);
      assert text[s.i + 1] != NUL;
      assert Step(first, text, mid) == Go(AfterChars(first, s, [c], |e|));
    } else {
      assert Step(first, text, s) == Go(AfterChars(first, s, [c], 1));
    }
  }

  lemma {:induction false} AfterParts(first: bool, s: State, a: string, b: string, w1: nat, w2: nat)
    requires InsideString(s) && (!first ==> Room(s, |a| + |b|))
    ensures var mid := AfterChars(first, s, a, w1);
      && InsideString(mid) && (!first ==> Room(mid, |b|)) && mid.i == s.i + w1 && mid.slen == s.slen + |a|
      && AfterChars(first, mid, b, w2) == AfterChars(first, s, a + b, w1 + w2)
  {
    hide Write;
    if !first {
      WriteWrite(s.built[s.top.value].mem, StringPos(s), a, b);
    }
  }

  /** Reading the characters of a printed string up to, not including, the quote. */
  lemma {:induction false} ParsesChars(first: bool, text: string, s: State, str: string)
    requires NoNul(text) && InsideString(s) && Ascii(str) && s.slen + |str| <= LIMIT
    requires HasAt(text, s.i, EscapeAll(str)) && (!first ==> Room(s, |str|))
    ensures InsideString(AfterChars(first, s, str, |EscapeAll(str)|))
    ensures Run(first, text, s) == Run(first, text, AfterChars(first, s, str, |EscapeAll(str)|))
    decreases str
  {
    hide Write, Run, EscapeChar;
    if str == "" {
      if !first {
        WriteNothing(s.built[s.top.value].mem, StringPos(s));
      }
      assert AfterChars(first, s, str, 0) == s;
    } else {
      var c, rest := str[0], str[1..];
      var e := EscapeChar(c);
      HasBoth(text, s.i, e, EscapeAll(rest));
      ParsesChar(first, text, s, c);
      assert [c] + rest == str;
      AfterParts(first, s, [c], rest, |e|, |EscapeAll(rest)|);
      ParsesChars(first, text, AfterChars(first, s, [c], |e|), rest);
    }
  }

  // ----------------------------------------------------------------------- values

  /** The nodes to be taken next. */
  predicate PoolHas(pool: seq<Node>, r: seq<Node>) {
    |r| <= |pool| && pool[..|r|] == r
  }

  /** The machine is about to read a value, and the tokens of v come next and end at e. */
  predicate Due(first: bool, text: string, s: State, v: Json, e: nat) {
    && NoNul(text) && Printable(v)
    && s.f == SEEK && s.slen == 0
    && (s.top.Some? ==> s.top.value < |s.built|)
    && EndOf(text, s.i, v) == Some(e)
    && !T.Numeric(At(text, e))
    && (!first ==> PoolHas(s.pool, Region(true, v, s.top, |s.built|)))
  }

  /** ... and in the second pass all its tables fit. */
  predicate Ready(first: bool, text: string, s: State, v: Json, e: nat) {
    Due(first, text, s, v, e) && (!first ==> T.AllFit(Region(true, v, s.top, |s.built|)))
  }

  /** The machine has read v, up to e, and is about to complete it. */
  function Before(first: bool, s: State, v: Json, e: nat): State
    requires !first ==> Count(v) <= |s.pool|
  {
    s.(i := e, f := QUIET, top := Some(|s.built|),
       built := s.built + Region(first, v, s.top, |s.built|),
       pool := if first then s.pool else s.pool[Count(v)..])
  }

  /** The node is created, or taken and prepared. */
  lemma {:induction false} TakesNode(first: bool, s: State, v: Json, kind: Kind)
    requires kind == Measured(v, s.top).kind && (!first ==> !BlockRefused(Measured(v, s.top)))
    requires !first ==> PoolHas(s.pool, Region(true, v, s.top, |s.built|))
    ensures NewValue(first, s, kind) == Go(s.(
      built := s.built + [Begin(first, v, s.top)], top := Some(|s.built|),
      pool := if first then s.pool else s.pool[1..]))
  {
    hide Prepare, Root, Region;
    if !first {
      RootFacts(true, v, s.top, |s.built|);
      assert s.pool[0] == s.pool[..Count(v)][0];
    }
  }

  /** The claim about one value. */
  predicate Parsed(first: bool, text: string, s: State, v: Json, e: nat)
    requires Ready(first, text, s, v, e)
  {
    CompleteCursor(first, Before(first, s, v, e));
    Run(first, text, s) == RunOn(first, text, Complete(first, Before(first, s, v, e)))
  }

  lemma {:induction false} ParsesWord(first: bool, text: string, s: State, v: Json, e: nat)
    requires Ready(first, text, s, v, e) && (v.JNull? || v.JBool?)
    ensures Parsed(first, text, s, v, e)
  {
    hide Complete, Rank, NewValue, Scalar, MarkTruth, Begin;
    var w := Str(v);
    HasHead(text, s.i, w);
    StepProgress(first, text, s);
    CompleteCursor(first, Before(first, s, v, e));
    var q := s.(f := QUIET, i := e);
    assert WordOf(w[0]).rest == w[1..];
    assert Step(first, text, s) == Scalar(first, q, Measured(v, s.top).kind, v.JBool? && v.b);
    MakesWord(first, s, q, v, e);
  }

  lemma {:induction false} MakesWord(first: bool, s: State, q: State, v: Json, e: nat)
    requires (v.JNull? || v.JBool?) && q == s.(f := QUIET, i := e)
    requires !first ==> PoolHas(s.pool, Region(true, v, s.top, |s.built|))
    ensures Scalar(first, q, Measured(v, s.top).kind, v.JBool? && v.b) == Complete(first, Before(first, s, v, e))
  {
    hide Complete, NewValue;
    TakesNode(first, q, v, Measured(v, s.top).kind);
    var r := NewValue(first, q, Measured(v, s.top).kind).st;
    assert r.(built := MarkTruth(r.built, |s.built|, v.JBool? && v.b)) == Before(first, s, v, e);
  }

  lemma {:induction false} AppendUpdate(built: seq<Node>, n: Node, m: Node)
    ensures (built + [n])[|built| := m] == built + [m]
  {
  }

  lemma {:induction false} ParsesString(first: bool, text: string, s: State, v: Json, e: nat)
    requires Ready(first, text, s, v, e) && v.JStr?
    ensures Parsed(first, text, s, v, e)
  {
    hide Complete, Rank, NewValue, Write, Run, CloseString, Prepare;
    var base := |s.built|;
    var body := EscapeAll(v.s);
    HasBoth(text, s.i, "\"" + body, "\"");
    HasBoth(text, s.i, "\"", body);
    HasHead(text, s.i, "\"");
    HasHead(text, s.i + 1 + |body|, "\"");
    TakesNode(first, s.(f := INSIDE, i := s.i + 1), v, KString);
    var s1 := NewValue(first, s.(f := INSIDE, i := s.i + 1), KString).st;
    OpensString(first, text, s, s1);
    BeginString(first, v.s, s.top);
    ParsesChars(first, text, s1, v.s);
    var s2 := AfterChars(first, s1, v.s, |body|);
    ClosesString(first, text, s2);
    CompleteCursor(first, Before(first, s, v, e));
    ClosedString(first, s, v, s1, s2);
  }

  lemma {:induction false} BeginString(first: bool, str: string, parent: Option<nat>)
    ensures var n := Begin(first, JStr(str), parent);
      n.kind == KString && (!first ==> |n.mem| == |str| + 1)
  {
  }

  lemma {:induction false} OpensString(first: bool, text: string, s: State, s1: State)
    requires NoNul(text) && s.i < |text| && text[s.i] == '"' && s.f == SEEK && s.slen == 0
    requires NewValue(first, s.(f := INSIDE, i := s.i + 1), KString) == Go(s1) && s1.i == s.i + 1
    ensures Run(first, text, s) == Run(first, text, s1)
  {
    hide NewValue, Rank;
    StepProgress(first, text, s);
    assert s.(f := INSIDE, i := s.i + 1, slen := 0) == s.(f := INSIDE, i := s.i + 1);
  }

  lemma {:induction false} ClosesString(first: bool, text: string, s: State)
    requires NoNul(text) && s.i < |text| && text[s.i] == '"' && s.f == INSIDE && s.slen <= LIMIT
    ensures CloseString(first, s.(f := QUIET, i := s.i + 1)).Go? ==>
      CloseString(first, s.(f := QUIET, i := s.i + 1)).st.i <= |text|
    ensures Run(first, text, s) == RunOn(first, text, CloseString(first, s.(f := QUIET, i := s.i + 1)))
  {
    hide CloseString, Rank;
    StepProgress(first, text, s);
    assert Step(first, text, s) == CloseString(first, s.(f := QUIET, i := s.i + 1));
  }

  lemma {:induction false} ClosedString(first: bool, s: State, v: Json, s1: State, s2: State)
    requires Printable(v) && v.JStr? && s.slen == 0
    requires !first ==> |s.pool| >= 1
    requires s1 == s.(f := INSIDE, i := s.i + 1, built := s.built + [Begin(first, v, s.top)], top := Some(|s.built|),
                      pool := if first then s.pool else s.pool[1..])
    requires !first ==> Room(s1, |v.s| + 1)
    requires s2 == AfterChars(first, s1, v.s, |EscapeAll(v.s)|)
    ensures CloseString(first, s2.(f := QUIET, i := s2.i + 1)) == Complete(first, Before(first, s, v, s.i + |Str(v)|))
  {
    hide Complete, Write, Prepare;
    var base := |s.built|;
    var b := Begin(first, v, s.top);
    BeginString(first, v.s, s.top);
    if first {
      AppendUpdate(s.built, b, b.(length := |v.s|));
    } else {
      var m1 := b.(mem := Write(b.mem, 0, v.s));
      AppendUpdate(s.built, b, m1);
      AppendUpdate(s.built, m1, m1.(length := |v.s|, mem := Write(m1.mem, |v.s|, [NUL])));
    }
    var closing := s2.(f := QUIET, i := s2.i + 1);
    var n := closing.built[base];
    var mem := if first then n.mem else Write(n.mem, |v.s|, [NUL]);
    assert closing.(slen := 0, built := closing.built[base := n.(length := |v.s|, mem := mem)])
        == Before(first, s, v, s.i + |Str(v)|);
  }

  // ---------------------------------------------------------------------- numbers

  lemma {:induction false} DigitsEndAt(text: string, i: nat, w: string)
    requires HasAt(text, i, w) && forall k | 0 <= k < |w| :: Digit(w[k])
    requires !Digit(At(text, i + |w|))
    ensures i <= |text| && DigitsEnd(text, i) == i + |w|
    decreases w
  {
    if w != "" {
      HasHead(text, i, w);
      DigitsEndAt(text, i + 1, w[1..]);
    }
  }

  /** strtol on any integer written in decimal, of any size. */
  lemma {:induction false} StrtolReads(text: string, i: nat, n: int)
    requires HasAt(text, i, Decimal(n)) && !Digit(At(text, i + |Decimal(n)|))
    ensures i < |text| && (Digit(text[i]) || text[i] == '-')
    ensures StrtolEnd(text, i) == i + |Decimal(n)| && StrtolValue(text, i) == Clamp(n)
    ensures forall k | i + 1 <= k < i + |Decimal(n)| :: Digit(text[k])
  {
    hide Digits, DecimalValue, DigitsEnd;
    var w := Digits(if n < 0 then -n else n);
    HasHead(text, i, Decimal(n));
    var start := if n < 0 then i + 1 else i;
    assert HasAt(text, start, w) by {
      if n < 0 {
        assert Decimal(n)[1..] == w;
      }
    }
    DigitsEndAt(text, start, w);
    assert text[start..start + |w|] == w;
    forall k | start <= k < start + |w| ensures Digit(text[k]) {
      assert text[k] == text[start..start + |w|][k - start];
    }
  }

  lemma {:induction false} NumberAct(first: bool, text: string, s: State)
    requires s.i < |text| && s.f == SEEK && (Digit(text[s.i]) || text[s.i] == '-')
    ensures Step(first, text, s) == NumberStart(first, text, s.(f := QUIET))
  {
    hide NumberStart;
  }

  lemma {:induction false} ParsesNumberFirst(text: string, s: State, v: Json, e: nat)
    requires Ready(true, text, s, v, e) && v.JInt?
    ensures Parsed(true, text, s, v, e)
  {
    hide Complete, Rank, NewValue, Decimal, StrtolEnd, StrtolValue, T.ScanEnd;
    StrtolReads(text, s.i, v.n);
    NumberAct(true, text, s);
    StepProgress(true, text, s);
    var q := s.(f := QUIET);
    TakesNode(true, q, v, KInteger);
    var begun := NewValue(true, q, KInteger).st.(i := s.i + 1);
    assert Step(true, text, s) == Go(begun);
    T.ScanRun(text, begun);
    var end := e;
    T.ScanDigits(text, begun, end);
    ScanStops(text, begun.(i := end));
    assert begun.(i := end) == Before(true, s, v, e);
    CompleteCursor(true, Before(true, s, v, e));
  }

  lemma {:induction false} ScanStops(text: string, s: State)
    requires T.Scanning(text, s) && !T.Numeric(At(text, s.i)) && !s.f.exponent && !s.f.gotSign
    ensures T.ScanEnd(text, s) == s
  {
  }

  /** The second pass at an integer of any size; beyond the range of a long it stops at the
    * end of the range. */
  function NumberRead(s: State, n: int): State
    requires s.pool != []
  {
    s.(i := s.i + |Decimal(n)|, f := QUIET, top := Some(|s.built|),
       built := s.built + [Fresh(KInteger, s.top).(num := Clamp(n))], pool := s.pool[1..])
  }

  /** Of the values of a long the one nearest to n. */
  lemma {:induction false} ClampIsNearest(n: int, m: int)
    requires -0x8000_0000_0000_0000 <= m <= 0x7FFF_FFFF_FFFF_FFFF
    ensures -0x8000_0000_0000_0000 <= Clamp(n) <= 0x7FFF_FFFF_FFFF_FFFF
    ensures (n <= m ==> Clamp(n) <= m) && (m <= n ==> m <= Clamp(n))
  {
  }

  lemma {:induction false} ReadsDecimal(text: string, s: State, n: int)
    requires NoNul(text) && s.f == SEEK && s.slen == 0 && s.pool != [] && s.pool[0] == Fresh(KInteger, s.top)
    requires HasAt(text, s.i, Decimal(n)) && !Digit(At(text, s.i + |Decimal(n)|))
    ensures Complete(false, NumberRead(s, n)).Go? ==> Complete(false, NumberRead(s, n)).st.i <= |text|
    ensures Run(false, text, s) == RunOn(false, text, Complete(false, NumberRead(s, n)))
  {
    hide Complete, Rank, Decimal, StrtolEnd, StrtolValue, Clamp;
    StrtolReads(text, s.i, n);
    NumberAct(false, text, s);
    StepProgress(false, text, s);
    var begun := Fresh(KInteger, s.top);
    var taken := NewValue(false, s.(f := QUIET), KInteger).st;
    AppendUpdate(s.built, begun, begun.(num := Clamp(n)));
    assert Convert(text, taken, |s.built|) == NumberRead(s, n);
    CompleteCursor(false, NumberRead(s, n));
  }

  lemma {:induction false} ParsesNumberSecond(text: string, s: State, v: Json, e: nat)
    requires Ready(false, text, s, v, e) && v.JInt?
    ensures Parsed(false, text, s, v, e)
  {
    hide Complete, Rank, Decimal, Run;
    assert s.pool[0] == s.pool[..1][0];
    ReadsDecimal(text, s, v.n);
    assert NumberRead(s, v.n) == Before(false, s, v, e);
    CompleteCursor(false, Before(false, s, v, e));
  }

  // ------------------------------------------------------------- inside a container

  /** Inside the container that s was about to read: n is its node so far, kids are the
    * nodes of the members it has. */
  function Inside(first: bool, s: State, n: Node, kids: seq<Node>, i: nat, f: Flags): State
    requires !first ==> 1 + |kids| <= |s.pool|
  {
    s.(i := i, f := f, top := Some(|s.built|),
       built := s.built + [n] + kids,
       pool := if first then s.pool else s.pool[1 + |kids|..])
  }

  lemma {:induction false} InsideFacts(first: bool, s: State, n: Node, kids: seq<Node>, i: nat, f: Flags)
    requires !first ==> 1 + |kids| <= |s.pool|
    ensures var here := Inside(first, s, n, kids, i, f);
      && |here.built| == |s.built| + 1 + |kids| && here.built[|s.built|] == n
      && TopKind(here) == Some(n.kind)
      && here.slen == s.slen && here.top == Some(|s.built|) && here.i == i && here.f == f
      && (!first ==> here.pool == s.pool[1 + |kids|..])
  {
  }

  lemma {:induction false} DropDrop(pool: seq<Node>, a: nat, b: nat)
    requires a + b <= |pool|
    ensures pool[a..][b..] == pool[a + b..]
  {
  }

  /** What Complete does when the top has a container for parent. */
  lemma {:induction false} CompleteIn(first: bool, s: State, t: nat, p: nat)
    requires s.top == Some(t) && t < |s.built| && p < |s.built|
    requires s.built[t].parent == Some(p) && Container(s.built[p].kind) && s.built[p].length < LIMIT
    requires !first ==> s.built[p].length < |s.built[p].values|
    ensures Complete(first, s) == Go(s.(
      f := s.f.(needComma := true, seekValue := s.f.seekValue || s.built[p].kind.KArray?),
      built := s.built[p := Link(first, s.built[p], t)], top := Some(p)))
  {
  }

  /** The flags after a member of a container. */
  function After(n: Node): Flags {
    QUIET.(needComma := true, seekValue := n.kind.KArray?)
  }

  lemma {:induction false} KindFacts(n: Node)
    ensures Container(n.kind) <==> n.kind.KArray? || n.kind.KObject?
    ensures n.kind.KArray? ==> After(n) == WAIT
    ensures n.kind.KObject? ==> After(n) == QUIET.(needComma := true)
    ensures After(n) == QUIET.(needComma := true, seekValue := n.kind.KArray?)
  {
  }

  /** Completing a member, read up to e, links it into the container. */
  lemma {:induction false} LinksChild(first: bool, s: State, n: Node, kids: seq<Node>, i: nat, v: Json, e: nat)
    requires Container(n.kind) && n.length < LIMIT
    requires !first ==> n.length < |n.values| && 1 + |kids| + Count(v) <= |s.pool|
    ensures var base := |s.built|; var t := base + 1 + |kids|;
      Complete(first, Before(first, Inside(first, s, n, kids, i, SEEK), v, e))
      == Go(Inside(first, s, Link(first, n, t), kids + Region(first, v, Some(base), t), e, After(n)))
  {
    hide *;
    var base := |s.built|;
    var t := base + 1 + |kids|;
    var here := Inside(first, s, n, kids, i, SEEK);
    var r := Region(first, v, Some(base), t);
    InsideFacts(first, s, n, kids, i, SEEK);
    var done := Before(first, here, v, e);
    InsideIs(first, s, n, kids, i, SEEK);
    BeforeIs(first, here, v, e);
    RootFacts(first, v, Some(base), t);
    ChildBuilt(s.built, n, kids, r, Link(first, n, t));
    KindFacts(n);
    CompleteIn(first, done, t, base);
    if !first {
      DropDrop(s.pool, 1 + |kids|, Count(v));
    }
    InsideIs(first, s, Link(first, n, t), kids + r, e, After(n));
    assert done.f.(needComma := true, seekValue := done.f.seekValue || n.kind.KArray?) == After(n);
  }

  lemma {:induction false} ChildBuilt(a: seq<Node>, n: Node, kids: seq<Node>, r: seq<Node>, m: Node)
    requires |r| > 0
    ensures var b := a + [n] + kids + r;
      && b[|a|] == n && |b| > |a| + 1 + |kids| && b[|a| + 1 + |kids|] == r[0]
      && b[|a| := m] == a + [m] + (kids + r)
  {
  }

  lemma {:induction false} InsideIs(first: bool, s: State, n: Node, kids: seq<Node>, i: nat, f: Flags)
    requires !first ==> 1 + |kids| <= |s.pool|
    ensures Inside(first, s, n, kids, i, f) == s.(i := i, f := f, top := Some(|s.built|),
              built := s.built + [n] + kids, pool := if first then s.pool else s.pool[1 + |kids|..])
  {
  }

  lemma {:induction false} BeforeIs(first: bool, s: State, v: Json, e: nat)
    requires !first ==> Count(v) <= |s.pool|
    ensures Before(first, s, v, e) == s.(i := e, f := QUIET, top := Some(|s.built|),
              built := s.built + Region(first, v, s.top, |s.built|),
              pool := if first then s.pool else s.pool[Count(v)..])
  {
    hide Region;
  }

  lemma {:induction false} PoolPart(pool: seq<Node>, r: seq<Node>, a: nat, n: nat)
    requires PoolHas(pool, r) && a + n <= |r|
    ensures a + n <= |pool| && PoolHas(pool[a..], r[a..a + n])
  {
    assert r == pool[..|r|];
  }

  lemma {:induction false} FitPart(r: seq<Node>, a: nat, n: nat)
    requires T.AllFit(r) && a + n <= |r|
    ensures T.AllFit(r[a..a + n])
  {
    var part := r[a..a + n];
    forall k: nat | k < |part| ensures TableFits(part[k]) {
      assert TableFits(r[a + k]);
    }
  }

  lemma {:induction false} IsReady(first: bool, text: string, s: State, v: Json, e: nat)
    requires Due(first, text, s, v, e) && (!first ==> T.AllFit(Region(true, v, s.top, |s.built|)))
    ensures Ready(first, text, s, v, e)
  {
    hide Due, Region;
  }

  lemma {:induction false} ItemFits(first: bool, items: seq<Json>, parent: Option<nat>, base: nat, j: nat)
    requires j < |items| && (!first ==> T.AllFit(Region(true, JArr(items), parent, base)))
    ensures !first ==> T.AllFit(Region(true, items[j], Some(base), base + 1 + CountUpTo(items, j)))
  {
    hide Region, T.AllFit;
    if !first {
      ItemRegion(true, items, parent, base, j);
      FitPart(Region(true, JArr(items), parent, base), 1 + CountUpTo(items, j), Count(items[j]));
    }
  }

  lemma {:induction false} MemberFits(first: bool, members: seq<Member>, parent: Option<nat>, base: nat, j: nat)
    requires j < |members| && (!first ==> T.AllFit(Region(true, JObj(members), parent, base)))
    ensures !first ==> T.AllFit(Region(true, members[j].value, Some(base), base + 1 + MCountUpTo(members, j)))
    ensures !first ==> j < TableRoom(|members|)
  {
    hide Region, T.AllFit, TableRoom;
    if !first {
      RootFits(JObj(members), parent, base);
      MemberRegion(true, members, parent, base, j);
      FitPart(Region(true, JObj(members), parent, base), 1 + MCountUpTo(members, j), Count(members[j].value));
    }
  }

  /** A value whose tables fit is not refused its own. */
  lemma {:induction false} RootFits(v: Json, parent: Option<nat>, base: nat)
    requires T.AllFit(Region(true, v, parent, base))
    ensures !BlockRefused(Measured(v, parent))
    ensures v.JObj? ==> |v.members| < MAX_MEMBERS && TableRoom(|v.members|) == |v.members|
  {
    hide Region, BlockRefused, TableRoom;
    RootFacts(true, v, parent, base);
    assert TableFits(Region(true, v, parent, base)[0]);
    if v.JObj? {
      FittingTable(Measured(v, parent));
    } else {
      OnlyObjectsRefused(Measured(v, parent));
    }
  }

  lemma {:induction false} OnlyObjectsRefused(n: Node)
    requires !n.kind.KObject?
    ensures !BlockRefused(n)
  {
  }

  /** Outside strings and numbers blanks are skipped. */
  lemma {:induction false} SkipsGap(first: bool, text: string, s: State)
    requires NoNul(text) && s.i <= |text| && !s.f.done && !s.f.inString
    requires s.f.seekValue || TopKind(s) == Some(KObject)
    ensures Run(first, text, s) == Run(first, text, s.(i := Past(text, s.i)))
    decreases |text| - s.i
  {
    hide Rank;
    if s.i < |text| && Space(text[s.i]) {
      StepProgress(first, text, s);
      assert Step(first, text, s) == Go(s.(i := s.i + 1));
      SkipsGap(first, text, s.(i := s.i + 1));
    } else {
      assert s.(i := Past(text, s.i)) == s;
    }
  }

  lemma {:induction false} SkipsComma(first: bool, text: string, s: State)
    requires NoNul(text) && HasAt(text, s.i, ",") && (s.f == WAIT || s.f == QUIET.(needComma := true))
    requires s.f != WAIT ==> TopKind(s) == Some(KObject)
    ensures Run(first, text, s) == Run(first, text, s.(i := s.i + 1, f := s.f.(needComma := false)))
  {
    hide Rank;
    HasHead(text, s.i, ",");
    StepProgress(first, text, s);
  }

  /** A closing bracket or brace. */
  lemma {:induction false} Closes(first: bool, text: string, s: State, c: char)
    requires NoNul(text) && HasAt(text, s.i, [c])
    requires (c == ']' && TopKind(s) == Some(KArray) && (s.f == WAIT || s.f == SEEK))
          || (c == '}' && TopKind(s) == Some(KObject) && (s.f == QUIET || s.f == QUIET.(needComma := true)))
    ensures Complete(first, s.(i := s.i + 1, f := QUIET)).Go? ==>
      Complete(first, s.(i := s.i + 1, f := QUIET)).st.i <= |text|
    ensures Run(first, text, s) == RunOn(first, text, Complete(first, s.(i := s.i + 1, f := QUIET)))
  {
    hide Rank, Complete;
    HasHead(text, s.i, [c]);
    StepProgress(first, text, s);
    CompleteCursor(first, s.(i := s.i + 1, f := QUIET));
    assert Step(first, text, s) == Complete(first, s.(i := s.i + 1, f := QUIET));
  }

  /** An opening bracket or brace. */
  lemma {:induction false} Opens(first: bool, text: string, s: State, v: Json, c: char)
    requires NoNul(text) && HasAt(text, s.i, [c]) && s.f == SEEK && s.slen == 0
    requires (c == '[' && v.JArr?) || (c == '{' && v.JObj?)
    requires !first ==> PoolHas(s.pool, Region(true, v, s.top, |s.built|)) && !BlockRefused(Measured(v, s.top))
    ensures Run(first, text, s) == Run(first, text, Inside(first, s, Begin(first, v, s.top), [], s.i + 1,
                                                           if v.JArr? then SEEK else QUIET))
  {
    hide Rank, NewValue, Str, Begin;
    var kind := if v.JArr? then KArray else KObject;
    var f := if v.JArr? then SEEK else QUIET;
    var q := s.(f := f, i := s.i + 1);
    HasHead(text, s.i, [c]);
    StepProgress(first, text, s);
    TakesNode(first, q, v, kind);
    assert q.(slen := 0) == q;
    assert Step(first, text, s) == NewValue(first, q, kind);
    assert NewValue(first, q, kind) == Go(Inside(first, s, Begin(first, v, s.top), [], s.i + 1, f));
  }

  // ----------------------------------------------------------------------- arrays

  lemma {:induction false} CountGrows(items: seq<Json>, j: nat, k: nat)
    requires j <= k <= |items|
    ensures CountUpTo(items, j) <= CountUpTo(items, k)
    decreases k
  {
    if j < k {
      CountGrows(items, j, k - 1);
    }
  }

  lemma {:induction false} RegionTail(first: bool, v: Json, parent: Option<nat>, base: nat)
    requires v.JArr? || v.JObj?
    ensures Region(first, v, parent, base)[1..]
      == if v.JArr? then Kids(first, v.items, base, |v.items|) else MKids(first, v.members, base, |v.members|)
    ensures |Region(first, v, parent, base)|
      == 1 + if v.JArr? then CountUpTo(v.items, |v.items|) else MCountUpTo(v.members, |v.members|)
  {
    hide Root, Kids, MKids;
  }

  /** The part of the array's nodes that belongs to member j. */
  lemma {:induction false} ItemRegion(first: bool, items: seq<Json>, parent: Option<nat>, base: nat, j: nat)
    requires j < |items|
    ensures var c := CountUpTo(items, j); var r := Region(first, JArr(items), parent, base);
      && 1 + c + Count(items[j]) <= |r|
      && r[1 + c..1 + c + Count(items[j])] == Region(first, items[j], Some(base), base + 1 + c)
  {
    hide Root, Region, Kids;
    var r := Region(first, JArr(items), parent, base);
    KidsSlice(first, items, base, j, |items|);
    RegionTail(first, JArr(items), parent, base);
    SliceShift(r, CountUpTo(items, j), Count(items[j]));
  }

  lemma {:induction false} SliceShift(r: seq<Node>, c: nat, n: nat)
    requires 1 + c + n <= |r|
    ensures r[1..][c..][..n] == r[1 + c..1 + c + n]
  {
  }

  lemma {:induction false} KidsStep(first: bool, items: seq<Json>, base: nat, j: nat)
    requires j < |items|
    ensures Kids(first, items, base, j + 1)
      == Kids(first, items, base, j) + Region(first, items[j], Some(base), base + 1 + CountUpTo(items, j))
    ensures CountUpTo(items, j + 1) == CountUpTo(items, j) + Count(items[j])
  {
  }

  lemma {:induction false} ArrNodeStep(first: bool, items: seq<Json>, parent: Option<nat>, base: nat, j: nat)
    requires j < |items|
    ensures ArrNode(first, items, parent, base, j + 1)
      == Link(first, ArrNode(first, items, parent, base, j), base + 1 + CountUpTo(items, j))
  {
  }

  /** Inside the array that s was about to read, j members done, cursor at i. */
  function InArray(first: bool, s: State, items: seq<Json>, j: nat, i: nat, f: Flags): State
    requires j <= |items|
    requires !first ==> 1 + CountUpTo(items, |items|) <= |s.pool|
  {
    CountGrows(items, j, |items|);
    Inside(first, s, ArrNode(first, items, s.top, |s.built|, j), Kids(first, items, |s.built|, j), i, f)
  }

  /** What follows a member is a blank, a comma or a bracket. */
  lemma {:induction false} ItemEnds(text: string, i: nat, items: seq<Json>, j: nat)
    requires i <= |text| && 0 < j <= |items| && forall k | 0 <= k < |items| :: Printable(items[k])
    requires ItemsEnd(text, i, items, j).Some?
    ensures !T.Numeric(At(text, i))
  {
    var b := Past(text, i);
    HasHead(text, b, if j == |items| then "]" else ",");
    assert b > i ==> text[i] == text[i..b][0];
  }

  predicate ArrayReady(first: bool, text: string, s: State, items: seq<Json>) {
    && NoNul(text) && Printable(JArr(items)) && s.slen == 0
    && (!first ==> PoolHas(s.pool, Region(true, JArr(items), s.top, |s.built|)))
  }

  /** All members done. */
  lemma {:induction false} ArrayDone(first: bool, s: State, items: seq<Json>, i: nat, f: Flags)
    requires !first ==> 1 + CountUpTo(items, |items|) <= |s.pool|
    ensures InArray(first, s, items, |items|, i, f).(i := i + 1, f := QUIET)
         == Before(first, s, JArr(items), i + 1)
  {
    hide ArrNode, Kids;
    var base := |s.built|;
    var n, kids := ArrNode(first, items, s.top, base, |items|), Kids(first, items, base, |items|);
    assert Region(first, JArr(items), s.top, base) == [n] + kids;
    assert s.built + [n] + kids == s.built + ([n] + kids);
  }

  lemma {:induction false} MakesDue(first: bool, text: string, s: State, v: Json, e: nat)
    requires NoNul(text) && Printable(v) && s.f == SEEK && s.slen == 0
    requires s.top.Some? && s.top.value < |s.built|
    requires EndOf(text, s.i, v) == Some(e) && !T.Numeric(At(text, e))
    requires !first ==> PoolHas(s.pool, Region(true, v, s.top, |s.built|))
    ensures Due(first, text, s, v, e)
  {
    hide EndOf, Region, Printable, PoolHas;
  }

  /** The machine is ready for member j. */
  lemma {:induction false} ItemDue(first: bool, text: string, s: State, items: seq<Json>, j: nat, i: nat, e: nat)
    requires ArrayReady(first, text, s, items) && j < |items| && e <= |text|
    requires Printable(items[j]) && EndOf(text, i, items[j]) == Some(e)
    requires (forall k | 0 <= k < |items| :: Printable(items[k])) && ItemsEnd(text, e, items, j + 1).Some?
    ensures !first ==> 1 + CountUpTo(items, |items|) <= |s.pool|
    ensures Due(first, text, InArray(first, s, items, j, i, SEEK), items[j], e)
    ensures var at := InArray(first, s, items, j, i, SEEK);
      at.top == Some(|s.built|) && |at.built| == |s.built| + 1 + CountUpTo(items, j)
    ensures !first ==> 1 + CountUpTo(items, j) + Count(items[j]) <= |s.pool|
  {
    hide *;
    var v := items[j];
    var base := |s.built|;
    ArrayFacts(first, text, s, items);
    CountGrows(items, j, |items|);
    InArrayIs(first, s, items, j, i, SEEK);
    InsideFacts(first, s, ArrNode(first, items, s.top, base, j), Kids(first, items, base, j), i, SEEK);
    ItemEnds(text, e, items, j + 1);
    if !first {
      ItemRegion(true, items, s.top, base, j);
      PoolPart(s.pool, Region(true, JArr(items), s.top, base), 1 + CountUpTo(items, j), Count(v));
    }
    MakesDue(first, text, InArray(first, s, items, j, i, SEEK), v, e);
  }

  lemma {:induction false} ArrayFacts(first: bool, text: string, s: State, items: seq<Json>)
    requires ArrayReady(first, text, s, items)
    ensures !first ==> 1 + CountUpTo(items, |items|) <= |s.pool|
    ensures |items| <= LIMIT && s.slen == 0 && NoNul(text)
    ensures forall k | 0 <= k < |items| :: Printable(items[k])
    ensures Printable(JArr(items))
    ensures !first ==> PoolHas(s.pool, Region(true, JArr(items), s.top, |s.built|))
  {
  }

  lemma {:induction false} InArrayIs(first: bool, s: State, items: seq<Json>, j: nat, i: nat, f: Flags)
    requires j <= |items|
    requires !first ==> 1 + CountUpTo(items, |items|) <= |s.pool|
    ensures !first ==> 1 + |Kids(first, items, |s.built|, j)| <= |s.pool|
    ensures InArray(first, s, items, j, i, f)
      == Inside(first, s, ArrNode(first, items, s.top, |s.built|, j), Kids(first, items, |s.built|, j), i, f)
  {
    hide Kids, ArrNode, Inside;
    CountGrows(items, j, |items|);
  }

  /** Completing member j of an array. */
  lemma {:induction false} LinksItem(first: bool, text: string, s: State, items: seq<Json>, j: nat, i: nat,
          e: nat)
    requires ArrayReady(first, text, s, items) && j < |items|
    requires !first ==> 1 + CountUpTo(items, j) + Count(items[j]) <= |s.pool|
    ensures !first ==> Count(items[j]) <= |InArray(first, s, items, j, i, SEEK).pool|
    ensures Complete(first, Before(first, InArray(first, s, items, j, i, SEEK), items[j], e))
      == Go(InArray(first, s, items, j + 1, e, WAIT))
  {
    hide *;
    var base := |s.built|;
    var n, kids := ArrNode(first, items, s.top, base, j), Kids(first, items, base, j);
    ArrayFacts(first, text, s, items);
    CountGrows(items, j, |items|);
    CountGrows(items, j + 1, |items|);
    InsideFacts(first, s, n, kids, i, SEEK);
    InArrayIs(first, s, items, j, i, SEEK);
    ArrNodeFacts(first, items, s.top, base, j);
    KindFacts(n);
    LinksChild(first, s, n, kids, i, items[j], e);
    ArrNodeStep(first, items, s.top, base, j);
    KidsStep(first, items, base, j);
    InArrayIs(first, s, items, j + 1, e, WAIT);
  }

  /** Reading an array from member j to its bracket. */
  lemma {:induction false} ParsesItems(first: bool, text: string, s: State, items: seq<Json>, j: nat, i: nat, e: nat)
    requires ArrayReady(first, text, s, items) && j <= |items| && i <= |text|
    requires (forall k | 0 <= k < |items| :: Printable(items[k])) && ItemsEnd(text, i, items, j) == Some(e)
    requires !first ==> T.AllFit(Region(true, JArr(items), s.top, |s.built|))
    ensures !first ==> 1 + CountUpTo(items, |items|) <= |s.pool|
    ensures (CompleteCursor(first, Before(first, s, JArr(items), e));
      Run(first, text, InArray(first, s, items, j, i, if j > 0 then WAIT else SEEK))
      == RunOn(first, text, Complete(first, Before(first, s, JArr(items), e))))
    decreases items, |items| - j
  {
    hide *;
    var f := if j > 0 then WAIT else SEEK;
    var base := |s.built|;
    ArrayFacts(first, text, s, items);
    ReachesNext(first, text, s, items, j, i, f);
    var b := Past(text, i);
    ItemsEndIs(text, i, items, j, e);
    if j == |items| {
      ArrayFactsAt(first, s, items, j, b, f);
      Closes(first, text, InArray(first, s, items, j, b, f), ']');
      ArrayDone(first, s, items, b, f);
    } else {
      var v := items[j];
      var k := if j > 0 then Past(text, b + 1) else b;
      if j > 0 {
        ReachesItem(first, text, s, items, j, b);
      }
      var e1 := EndOf(text, k, v).value;
      ItemDue(first, text, s, items, j, k, e1);
      ItemFits(first, items, s.top, base, j);
      IsReady(first, text, InArray(first, s, items, j, k, SEEK), v, e1);
      ParsesValue(first, text, InArray(first, s, items, j, k, SEEK), v, e1);
      LinksItem(first, text, s, items, j, k, e1);
      GoesOn(first, text, InArray(first, s, items, j, k, SEEK), v, e1, InArray(first, s, items, j + 1, e1, WAIT));
      ParsesItems(first, text, s, items, j + 1, e1, e);
    }
  }

  /** A value is read, and linking it leads to next. */
  lemma {:induction false} GoesOn(first: bool, text: string, s: State, v: Json, e: nat, next: State)
    requires Ready(first, text, s, v, e) && Parsed(first, text, s, v, e)
    requires Complete(first, Before(first, s, v, e)) == Go(next)
    ensures s.i <= |text| && next.i <= |text| && Run(first, text, s) == Run(first, text, next)
  {
    hide Run, Complete, Region, EndOf, Printable;
    CompleteCursor(first, Before(first, s, v, e));
  }

  /** What stands in the text from element j on. */
  lemma {:induction false} ItemsEndIs(text: string, i: nat, items: seq<Json>, j: nat, e: nat)
    requires i <= |text| && j <= |items| && forall k | 0 <= k < |items| :: Printable(items[k])
    requires ItemsEnd(text, i, items, j) == Some(e)
    ensures j == |items| ==> HasAt(text, Past(text, i), "]") && e == Past(text, i) + 1 <= |text|
    ensures j < |items| ==>
      var b := Past(text, i);
      && (j > 0 ==> HasAt(text, b, ",") && b < |text|)
      && var v := EndOf(text, if j > 0 then Past(text, b + 1) else b, items[j]);
      && v.Some? && v.value <= |text| && ItemsEnd(text, v.value, items, j + 1) == Some(e)
  {
    hide EndOf, Past;
  }

  lemma {:induction false} ArrayFactsAt(first: bool, s: State, items: seq<Json>, j: nat, i: nat, f: Flags)
    requires j <= |items| && (!first ==> 1 + CountUpTo(items, |items|) <= |s.pool|)
    ensures var at := InArray(first, s, items, j, i, f);
      at.i == i && at.f == f && at.slen == s.slen && at.top == Some(|s.built|) && TopKind(at) == Some(KArray)
  {
    hide *;
    InArrayIs(first, s, items, j, i, f);
    ArrNodeFacts(first, items, s.top, |s.built|, j);
    InsideFacts(first, s, ArrNode(first, items, s.top, |s.built|, j), Kids(first, items, |s.built|, j), i, f);
  }

  /** Over the blanks after the bracket or an element. */
  lemma {:induction false} ReachesNext(first: bool, text: string, s: State, items: seq<Json>, j: nat, i: nat, f: Flags)
    requires ArrayReady(first, text, s, items) && j <= |items| && i <= |text| && (f == SEEK || f == WAIT)
    ensures !first ==> 1 + CountUpTo(items, |items|) <= |s.pool|
    ensures Run(first, text, InArray(first, s, items, j, i, f))
         == Run(first, text, InArray(first, s, items, j, Past(text, i), f))
  {
    hide *;
    ArrayFacts(first, text, s, items);
    ArrayFactsAt(first, s, items, j, i, f);
    FlagFacts();
    SkipsGap(first, text, InArray(first, s, items, j, i, f));
    InArrayMoves(first, s, items, j, i, f, Past(text, i), f);
  }

  /** Over the comma and the blanks behind it. */
  lemma {:induction false} ReachesItem(first: bool, text: string, s: State, items: seq<Json>, j: nat, b: nat)
    requires ArrayReady(first, text, s, items) && j < |items| && HasAt(text, b, ",")
    ensures b + 1 <= |text| && (!first ==> 1 + CountUpTo(items, |items|) <= |s.pool|)
    ensures Run(first, text, InArray(first, s, items, j, b, WAIT))
         == Run(first, text, InArray(first, s, items, j, Past(text, b + 1), SEEK))
  {
    hide *;
    ArrayFacts(first, text, s, items);
    HasHead(text, b, ",");
    ArrayFactsAt(first, s, items, j, b, WAIT);
    SkipsComma(first, text, InArray(first, s, items, j, b, WAIT));
    FlagFacts();
    InArrayMoves(first, s, items, j, b, WAIT, b + 1, SEEK);
    ReachesNext(first, text, s, items, j, b + 1, SEEK);
  }

  lemma {:induction false} FlagFacts()
    ensures WAIT.(needComma := false) == SEEK && QUIET.(needComma := false) == QUIET
    ensures QUIET.(needComma := true).(needComma := false) == QUIET
    ensures SEEK.seekValue && WAIT.seekValue && !SEEK.done && !SEEK.inString && !WAIT.done && !WAIT.inString
    ensures !QUIET.done && !QUIET.inString
    ensures SEEK.(needColon := true).seekValue
  {
  }

  lemma {:induction false} InArrayMoves(first: bool, s: State, items: seq<Json>, j: nat, i: nat, f: Flags, k: nat,
          g: Flags)
    requires j <= |items|
    requires !first ==> 1 + CountUpTo(items, |items|) <= |s.pool|
    ensures InArray(first, s, items, j, i, f).(i := k, f := g) == InArray(first, s, items, j, k, g)
    ensures f == g ==> InArray(first, s, items, j, i, f).(i := k) == InArray(first, s, items, j, k, g)
  {
    hide Kids, ArrNode;
  }

  lemma {:induction false} ParsesArray(first: bool, text: string, s: State, v: Json, e: nat)
    requires Ready(first, text, s, v, e) && v.JArr?
    ensures Parsed(first, text, s, v, e)
    decreases v, 0
  {
    hide Complete, Run, Root, Region, Before, T.AllFit, BlockRefused, Past;
    var items := v.items;
    HasHead(text, s.i, "[");
    if !first {
      RootFits(v, s.top, |s.built|);
    }
    Opens(first, text, s, v, '[');
    ParsesItems(first, text, s, items, 0, s.i + 1, e);
  }

  // ---------------------------------------------------------------------- objects

  /** The opening quote of a key. */
  lemma {:induction false} OpensKey(first: bool, text: string, s: State)
    requires NoNul(text) && HasAt(text, s.i, "\"") && s.f == QUIET && TopKind(s) == Some(KObject)
    ensures Run(first, text, s) == Run(first, text, s.(i := s.i + 1, f := INSIDE, slen := 0))
  {
    hide Rank;
    HasHead(text, s.i, "\"");
    StepProgress(first, text, s);
  }

  /** The colon after a key, and the blanks around it. */
  lemma {:induction false} SkipsColon(first: bool, text: string, s: State)
    requires NoNul(text) && s.i <= |text| && s.f == SEEK.(needColon := true)
    requires HasAt(text, Past(text, s.i), ":")
    ensures Past(text, s.i) + 1 <= |text|
    ensures Run(first, text, s) == Run(first, text, s.(i := Past(text, Past(text, s.i) + 1), f := SEEK))
  {
    hide *;
    FlagFacts();
    SkipsGap(first, text, s);
    OneColon(first, text, s.(i := Past(text, s.i)));
    SkipsGap(first, text, s.(i := Past(text, s.i) + 1, f := SEEK));
  }

  lemma {:induction false} OneColon(first: bool, text: string, s: State)
    requires NoNul(text) && s.f == SEEK.(needColon := true) && HasAt(text, s.i, ":")
    ensures s.i + 1 <= |text| && Run(first, text, s) == Run(first, text, s.(i := s.i + 1, f := SEEK))
  {
    hide Rank;
    HasHead(text, s.i, ":");
    StepProgress(first, text, s);
    assert Step(first, text, s) == Go(s.(i := s.i + 1, f := SEEK));
  }

  /** The object on top with room for one more key. */
  predicate KeyFits(first: bool, n: Node, key: string) {
    n.kind.KObject? && (!first ==> n.memPos + |key| + 1 <= |n.mem| && n.length < |n.names|)
  }

  /** The closing quote stores the key. */
  lemma {:induction false} StoresKey(first: bool, s: State, n: Node, kids: seq<Node>, i: nat, key: string, width: nat)
    requires KeyFits(first, n, key) && s.slen == 0
    requires !first ==> 1 + |kids| <= |s.pool|
    ensures var k1 := Inside(first, s, n, kids, i, INSIDE);
      && InsideString(k1) && (!first ==> Room(k1, |key|))
      && CloseString(first, AfterChars(first, k1, key, width).(f := QUIET, i := i + width + 1))
        == Go(Inside(first, s, Keyed(first, n, key), kids, i + width + 1, SEEK.(needColon := true)))
  {
    hide Write;
    var base := |s.built|;
    var k1 := Inside(first, s, n, kids, i, INSIDE);
    var m := n.(mem := if first then n.mem else Write(n.mem, n.memPos, key));
    UpdateMiddle(s.built, n, kids, m);
    UpdateMiddle(s.built, m, kids, Keyed(first, n, key));
    if first {
      UpdateMiddle(s.built, n, kids, Keyed(first, n, key));
    }
  }

  lemma {:induction false} UpdateMiddle(a: seq<Node>, n: Node, b: seq<Node>, m: Node)
    ensures (a + [n] + b)[|a|] == n
    ensures (a + [n] + b)[|a| := m] == a + [m] + b
  {
  }

  /** Reading a key, its colon and the blanks around that. */
  lemma {:induction false} ReadsKey(first: bool, text: string, s: State, n: Node, kids: seq<Node>, i: nat, key: string)
    requires NoNul(text) && s.slen == 0 && Ascii(key) && |key| <= LIMIT && KeyFits(first, n, key)
    requires !first ==> 1 + |kids| <= |s.pool|
    requires HasAt(text, i, Quote(key)) && i + |Quote(key)| <= |text|
    requires HasAt(text, Past(text, i + |Quote(key)|), ":")
    ensures Past(text, i + |Quote(key)|) + 1 <= |text|
    ensures Run(first, text, Inside(first, s, n, kids, i, QUIET))
      == Run(first, text, Inside(first, s, Keyed(first, n, key), kids,
                                 Past(text, Past(text, i + |Quote(key)|) + 1), SEEK))
  {
    hide Run, CloseString, Keyed, EscapeAll, AfterChars, Past;
    var body := EscapeAll(key);
    var end := i + 1 + |body|;
    HasBoth(text, i, "\"" + body, "\"");
    HasBoth(text, i, "\"", body);
    HasHead(text, end, "\"");
    var here := Inside(first, s, n, kids, i, QUIET);
    var k1 := Inside(first, s, n, kids, i + 1, INSIDE);
    InsideFacts(first, s, n, kids, i, QUIET);
    OpensKey(first, text, here);
    assert here.(i := i + 1, f := INSIDE, slen := 0) == k1;
    StoresKey(first, s, n, kids, i + 1, key, |body|);
    ParsesChars(first, text, k1, key);
    AfterFacts(first, k1, key, |body|);
    ClosesString(first, text, AfterChars(first, k1, key, |body|));
    SkipsColon(first, text, Inside(first, s, Keyed(first, n, key), kids, end + 1, SEEK.(needColon := true)));
  }

  lemma {:induction false} AfterFacts(first: bool, s: State, str: string, width: nat)
    requires InsideString(s) && (!first ==> Room(s, |str|))
    ensures var a := AfterChars(first, s, str, width);
      a.i == s.i + width && a.f == s.f && a.slen == s.slen + |str|
  {
  }

  lemma {:induction false} MCountGrows(members: seq<Member>, j: nat, k: nat)
    requires j <= k <= |members|
    ensures MCountUpTo(members, j) <= MCountUpTo(members, k)
    decreases k
  {
    if j < k {
      MCountGrows(members, j, k - 1);
    }
  }

  lemma {:induction false} MemberRegion(first: bool, members: seq<Member>, parent: Option<nat>, base: nat, j: nat)
    requires j < |members|
    ensures var c := MCountUpTo(members, j); var r := Region(first, JObj(members), parent, base);
      && 1 + c + Count(members[j].value) <= |r|
      && r[1 + c..1 + c + Count(members[j].value)] == Region(first, members[j].value, Some(base), base + 1 + c)
  {
    hide Root, Region, MKids;
    var r := Region(first, JObj(members), parent, base);
    MKidsSlice(first, members, base, j, |members|);
    RegionTail(first, JObj(members), parent, base);
    SliceShift(r, MCountUpTo(members, j), Count(members[j].value));
  }

  lemma {:induction false} MKidsStep(first: bool, members: seq<Member>, base: nat, j: nat)
    requires j < |members|
    ensures MKids(first, members, base, j + 1)
      == MKids(first, members, base, j)
         + Region(first, members[j].value, Some(base), base + 1 + MCountUpTo(members, j))
    ensures MCountUpTo(members, j + 1) == MCountUpTo(members, j) + Count(members[j].value)
  {
  }

  lemma {:induction false} ObjNodeStep(first: bool, members: seq<Member>, parent: Option<nat>, base: nat, j: nat)
    requires j < |members|
    ensures ObjNode(first, members, parent, base, j + 1)
      == Link(first, Keyed(first, ObjNode(first, members, parent, base, j), members[j].key),
              base + 1 + MCountUpTo(members, j))
  {
  }

  /** Inside the object that s was about to read, j members done, cursor at i. */
  function InObject(first: bool, s: State, members: seq<Member>, j: nat, i: nat, f: Flags): State
    requires j <= |members|
    requires !first ==> 1 + MCountUpTo(members, |members|) <= |s.pool|
  {
    MCountGrows(members, j, |members|);
    Inside(first, s, ObjNode(first, members, s.top, |s.built|, j), MKids(first, members, |s.built|, j), i, f)
  }

  /** ... with the key of member j read as well. */
  function InMember(first: bool, s: State, members: seq<Member>, j: nat, i: nat): State
    requires j < |members|
    requires !first ==> 1 + MCountUpTo(members, |members|) <= |s.pool|
  {
    MCountGrows(members, j, |members|);
    Inside(first, s, Keyed(first, ObjNode(first, members, s.top, |s.built|, j), members[j].key),
           MKids(first, members, |s.built|, j), i, SEEK)
  }

  lemma {:induction false} InObjectIs(first: bool, s: State, members: seq<Member>, j: nat, i: nat, f: Flags)
    requires j <= |members|
    requires !first ==> 1 + MCountUpTo(members, |members|) <= |s.pool|
    ensures !first ==> 1 + |MKids(first, members, |s.built|, j)| <= |s.pool|
    ensures InObject(first, s, members, j, i, f)
      == Inside(first, s, ObjNode(first, members, s.top, |s.built|, j), MKids(first, members, |s.built|, j), i, f)
  {
    hide MKids, ObjNode, Inside;
    MCountGrows(members, j, |members|);
  }

  lemma {:induction false} InMemberIs(first: bool, s: State, members: seq<Member>, j: nat, i: nat)
    requires j < |members|
    requires !first ==> 1 + MCountUpTo(members, |members|) <= |s.pool|
    ensures !first ==> 1 + |MKids(first, members, |s.built|, j)| <= |s.pool|
    ensures InMember(first, s, members, j, i)
      == Inside(first, s, Keyed(first, ObjNode(first, members, s.top, |s.built|, j), members[j].key),
                MKids(first, members, |s.built|, j), i, SEEK)
  {
    hide MKids, ObjNode, Inside, Keyed;
    MCountGrows(members, j, |members|);
  }

  predicate ObjectReady(first: bool, text: string, s: State, members: seq<Member>) {
    && NoNul(text) && Printable(JObj(members)) && s.slen == 0
    && (!first ==> PoolHas(s.pool, Region(true, JObj(members), s.top, |s.built|)))
  }

  lemma {:induction false} ObjectFacts(first: bool, text: string, s: State, members: seq<Member>)
    requires ObjectReady(first, text, s, members)
    ensures !first ==> 1 + MCountUpTo(members, |members|) <= |s.pool|
    ensures |members| <= LIMIT && s.slen == 0 && NoNul(text)
    ensures forall k | 0 <= k < |members| ::
              Ascii(members[k].key) && |members[k].key| <= LIMIT && Printable(members[k].value)
    ensures Printable(JObj(members))
    ensures !first ==> PoolHas(s.pool, Region(true, JObj(members), s.top, |s.built|))
  {
  }

  /** The object has room for the key of member j, and with it for the link to its value. */
  lemma {:induction false} KeyHasRoom(first: bool, members: seq<Member>, parent: Option<nat>, base: nat, j: nat)
    requires j < |members| && (!first ==> j < TableRoom(|members|))
    ensures var n := ObjNode(first, members, parent, base, j);
      && KeyFits(first, n, members[j].key)
      && var m := Keyed(first, n, members[j].key);
         m.kind == KObject && m.length == j && (!first ==> |m.values| == TableRoom(|members|))
  {
    hide Write, TableRoom, KeyRoom;
    KeysHaveRoom(members, parent);
    ObjNodeFacts(first, members, parent, base, j);
    KeyBytesGrow(members, j + 1, |members|);
  }

  /** What follows a member is a blank, a comma or a brace. */
  lemma {:induction false} MemberEnds(text: string, i: nat, members: seq<Member>, j: nat)
    requires i <= |text| && 0 < j <= |members|
    requires forall k | 0 <= k < |members| :: Ascii(members[k].key) && Printable(members[k].value)
    requires MembersEnd(text, i, members, j).Some?
    ensures !T.Numeric(At(text, i))
  {
    hide Quote;
    var b := Past(text, i);
    HasHead(text, b, if j == |members| then "}" else ",");
    assert b > i ==> text[i] == text[i..b][0];
  }

  /** The machine is ready for the value of member j. */
  lemma {:induction false} MemberDue(first: bool, text: string, s: State, members: seq<Member>, j: nat, i: nat, e: nat)
    requires ObjectReady(first, text, s, members) && j < |members| && e <= |text|
    requires forall k | 0 <= k < |members| :: Ascii(members[k].key) && Printable(members[k].value)
    requires EndOf(text, i, members[j].value) == Some(e) && MembersEnd(text, e, members, j + 1).Some?
    ensures !first ==> 1 + MCountUpTo(members, |members|) <= |s.pool|
    ensures Due(first, text, InMember(first, s, members, j, i), members[j].value, e)
    ensures var at := InMember(first, s, members, j, i);
      at.top == Some(|s.built|) && |at.built| == |s.built| + 1 + MCountUpTo(members, j)
    ensures !first ==> 1 + MCountUpTo(members, j) + Count(members[j].value) <= |s.pool|
  {
    hide *;
    var v := members[j].value;
    var base := |s.built|;
    ObjectFacts(first, text, s, members);
    MCountGrows(members, j, |members|);
    InMemberIs(first, s, members, j, i);
    InsideFacts(first, s, Keyed(first, ObjNode(first, members, s.top, base, j), members[j].key),
                MKids(first, members, base, j), i, SEEK);
    MemberEnds(text, e, members, j + 1);
    if !first {
      MemberRegion(true, members, s.top, base, j);
      PoolPart(s.pool, Region(true, JObj(members), s.top, base), 1 + MCountUpTo(members, j), Count(v));
    }
    MakesDue(first, text, InMember(first, s, members, j, i), v, e);
  }

  /** Completing member j of an object. */
  lemma {:induction false} LinksMember(first: bool, text: string, s: State, members: seq<Member>, j: nat, i: nat,
          e: nat)
    requires ObjectReady(first, text, s, members) && j < |members| && (!first ==> j < TableRoom(|members|))
    requires !first ==> 1 + MCountUpTo(members, j) + Count(members[j].value) <= |s.pool|
    ensures !first ==> Count(members[j].value) <= |InMember(first, s, members, j, i).pool|
    ensures Complete(first, Before(first, InMember(first, s, members, j, i), members[j].value, e))
      == Go(InObject(first, s, members, j + 1, e, QUIET.(needComma := true)))
  {
    hide *;
    var base := |s.built|;
    var n := Keyed(first, ObjNode(first, members, s.top, base, j), members[j].key);
    var kids := MKids(first, members, base, j);
    ObjectFacts(first, text, s, members);
    MCountGrows(members, j, |members|);
    MCountGrows(members, j + 1, |members|);
    InsideFacts(first, s, n, kids, i, SEEK);
    InMemberIs(first, s, members, j, i);
    KeyHasRoom(first, members, s.top, base, j);
    KindFacts(n);
    LinksChild(first, s, n, kids, i, members[j].value, e);
    ObjNodeStep(first, members, s.top, base, j);
    MKidsStep(first, members, base, j);
    InObjectIs(first, s, members, j + 1, e, QUIET.(needComma := true));
  }

  /** From the start of member j to the start of its value. */
  lemma {:induction false} ReachesValue(first: bool, text: string, s: State, members: seq<Member>, j: nat, i: nat)
    requires ObjectReady(first, text, s, members) && j < |members| && (!first ==> j < TableRoom(|members|))
    requires Ascii(members[j].key) && HasAt(text, i, Quote(members[j].key)) && i + |Quote(members[j].key)| <= |text|
    requires HasAt(text, Past(text, i + |Quote(members[j].key)|), ":")
    ensures Past(text, i + |Quote(members[j].key)|) + 1 <= |text|
    ensures !first ==> 1 + MCountUpTo(members, |members|) <= |s.pool|
    ensures Run(first, text, InObject(first, s, members, j, i, QUIET))
      == Run(first, text, InMember(first, s, members, j, Past(text, Past(text, i + |Quote(members[j].key)|) + 1)))
  {
    hide *;
    var base := |s.built|;
    var key := members[j].key;
    ObjectFacts(first, text, s, members);
    InObjectIs(first, s, members, j, i, QUIET);
    HasHead(text, Past(text, i + |Quote(key)|), ":");
    InMemberIs(first, s, members, j, Past(text, Past(text, i + |Quote(key)|) + 1));
    KeyHasRoom(first, members, s.top, base, j);
    ReadsKey(first, text, s, ObjNode(first, members, s.top, base, j), MKids(first, members, base, j), i, key);
  }

  /** All members done. */
  lemma {:induction false} ObjectDone(first: bool, s: State, members: seq<Member>, i: nat, f: Flags)
    requires !first ==> 1 + MCountUpTo(members, |members|) <= |s.pool|
    ensures InObject(first, s, members, |members|, i, f).(i := i + 1, f := QUIET)
         == Before(first, s, JObj(members), i + 1)
  {
    hide ObjNode, MKids;
    var base := |s.built|;
    var n, kids := ObjNode(first, members, s.top, base, |members|), MKids(first, members, base, |members|);
    assert Region(first, JObj(members), s.top, base) == [n] + kids;
    assert s.built + [n] + kids == s.built + ([n] + kids);
  }

  lemma {:induction false} InObjectMoves(first: bool, s: State, members: seq<Member>, j: nat, i: nat, f: Flags, k: nat,
          g: Flags)
    requires j <= |members|
    requires !first ==> 1 + MCountUpTo(members, |members|) <= |s.pool|
    ensures InObject(first, s, members, j, i, f).(i := k, f := g) == InObject(first, s, members, j, k, g)
    ensures f == g ==> InObject(first, s, members, j, i, f).(i := k) == InObject(first, s, members, j, k, g)
  {
    hide MKids, ObjNode;
  }

  /** Reading an object from member j to its brace. */
  lemma {:induction false} ParsesMembers(first: bool, text: string, s: State, members: seq<Member>, j: nat, i: nat,
          e: nat)
    requires ObjectReady(first, text, s, members) && j <= |members| && i <= |text|
    requires forall k | 0 <= k < |members| :: Ascii(members[k].key) && Printable(members[k].value)
    requires MembersEnd(text, i, members, j) == Some(e)
    requires !first ==> T.AllFit(Region(true, JObj(members), s.top, |s.built|))
    ensures !first ==> 1 + MCountUpTo(members, |members|) <= |s.pool|
    ensures (CompleteCursor(first, Before(first, s, JObj(members), e));
      Run(first, text, InObject(first, s, members, j, i, QUIET.(needComma := j > 0)))
      == RunOn(first, text, Complete(first, Before(first, s, JObj(members), e))))
    decreases members, |members| - j
  {
    hide *;
    var f := QUIET.(needComma := j > 0);
    var base := |s.built|;
    ObjectFacts(first, text, s, members);
    FlagFacts();
    ReachesMark(first, text, s, members, j, i, f);
    var b := Past(text, i);
    MembersEndIs(text, i, members, j, e);
    if j == |members| {
      ObjectFactsAt(first, s, members, j, b, f);
      Closes(first, text, InObject(first, s, members, j, b, f), '}');
      ObjectDone(first, s, members, b, f);
    } else {
      var v := members[j].value;
      var k := if j > 0 then Past(text, b + 1) else b;
      if j > 0 {
        ReachesMember(first, text, s, members, j, b);
      }
      MemberFits(first, members, s.top, base, j);
      ReachesValue(first, text, s, members, j, k);
      var d := Past(text, Past(text, k + |Quote(members[j].key)|) + 1);
      var e1 := EndOf(text, d, v).value;
      MemberDue(first, text, s, members, j, d, e1);
      IsReady(first, text, InMember(first, s, members, j, d), v, e1);
      ParsesValue(first, text, InMember(first, s, members, j, d), v, e1);
      LinksMember(first, text, s, members, j, d, e1);
      GoesOn(first, text, InMember(first, s, members, j, d), v, e1,
              InObject(first, s, members, j + 1, e1, QUIET.(needComma := true)));
      ParsesMembers(first, text, s, members, j + 1, e1, e);
    }
  }

  /** What stands in the text from member j on. */
  lemma {:induction false} MembersEndIs(text: string, i: nat, members: seq<Member>, j: nat, e: nat)
    requires i <= |text| && j <= |members|
    requires forall k | 0 <= k < |members| :: Ascii(members[k].key) && Printable(members[k].value)
    requires MembersEnd(text, i, members, j) == Some(e)
    ensures j == |members| ==> HasAt(text, Past(text, i), "}") && e == Past(text, i) + 1 <= |text|
    ensures j < |members| ==>
      var b := Past(text, i);
      && b < |text| && (j > 0 ==> HasAt(text, b, ","))
      && var k := if j > 0 then Past(text, b + 1) else b;
      && HasAt(text, k, Quote(members[j].key)) && k + |Quote(members[j].key)| <= |text|
      && var c := Past(text, k + |Quote(members[j].key)|);
      && HasAt(text, c, ":") && c < |text|
      && var v := EndOf(text, Past(text, c + 1), members[j].value);
      && v.Some? && v.value <= |text| && MembersEnd(text, v.value, members, j + 1) == Some(e)
  {
    hide Quote, EndOf, Past;
  }

  lemma {:induction false} ObjectFactsAt(first: bool, s: State, members: seq<Member>, j: nat, i: nat, f: Flags)
    requires j <= |members| && (!first ==> 1 + MCountUpTo(members, |members|) <= |s.pool|)
    ensures var at := InObject(first, s, members, j, i, f);
      at.i == i && at.f == f && at.slen == s.slen && at.top == Some(|s.built|) && TopKind(at) == Some(KObject)
  {
    hide *;
    InObjectIs(first, s, members, j, i, f);
    ObjNodeFacts(first, members, s.top, |s.built|, j);
    InsideFacts(first, s, ObjNode(first, members, s.top, |s.built|, j), MKids(first, members, |s.built|, j), i, f);
  }

  /** Over the blanks after the brace or a member. */
  lemma {:induction false} ReachesMark(first: bool, text: string, s: State, members: seq<Member>, j: nat, i: nat,
          f: Flags)
    requires ObjectReady(first, text, s, members) && j <= |members| && i <= |text|
    requires f == QUIET || f == QUIET.(needComma := true)
    ensures !first ==> 1 + MCountUpTo(members, |members|) <= |s.pool|
    ensures Run(first, text, InObject(first, s, members, j, i, f))
         == Run(first, text, InObject(first, s, members, j, Past(text, i), f))
  {
    hide *;
    ObjectFacts(first, text, s, members);
    ObjectFactsAt(first, s, members, j, i, f);
    FlagFacts();
    SkipsGap(first, text, InObject(first, s, members, j, i, f));
    InObjectMoves(first, s, members, j, i, f, Past(text, i), f);
  }

  /** Over the comma and the blanks behind it. */
  lemma {:induction false} ReachesMember(first: bool, text: string, s: State, members: seq<Member>, j: nat, b: nat)
    requires ObjectReady(first, text, s, members) && j < |members| && HasAt(text, b, ",")
    ensures b + 1 <= |text| && (!first ==> 1 + MCountUpTo(members, |members|) <= |s.pool|)
    ensures Run(first, text, InObject(first, s, members, j, b, QUIET.(needComma := true)))
         == Run(first, text, InObject(first, s, members, j, Past(text, b + 1), QUIET))
  {
    hide *;
    var f := QUIET.(needComma := true);
    ObjectFacts(first, text, s, members);
    HasHead(text, b, ",");
    ObjectFactsAt(first, s, members, j, b, f);
    SkipsComma(first, text, InObject(first, s, members, j, b, f));
    FlagFacts();
    InObjectMoves(first, s, members, j, b, f, b + 1, QUIET);
    ReachesMark(first, text, s, members, j, b + 1, QUIET);
  }

  lemma {:induction false} ParsesObject(first: bool, text: string, s: State, v: Json, e: nat)
    requires Ready(first, text, s, v, e) && v.JObj?
    ensures Parsed(first, text, s, v, e)
    decreases v, 0
  {
    hide Complete, Run, Root, Region, Before, T.AllFit, BlockRefused, Past;
    var members := v.members;
    HasHead(text, s.i, "{");
    if !first {
      RootFits(v, s.top, |s.built|);
    }
    Opens(first, text, s, v, '{');
    ParsesMembers(first, text, s, members, 0, s.i + 1, e);
  }

  lemma {:induction false} ParsesValue(first: bool, text: string, s: State, v: Json, e: nat)
    requires Ready(first, text, s, v, e)
    ensures Parsed(first, text, s, v, e)
    decreases v, 1
  {
    hide Complete, Run, Str, Root, Region, Ready, Due, Parsed;
    match v
    case JStr(_) => ParsesString(first, text, s, v, e);
    case JInt(_) =>
      if first {
        ParsesNumberFirst(text, s, v, e);
      } else {
        ParsesNumberSecond(text, s, v, e);
      }
    case JArr(_) => ParsesArray(first, text, s, v, e);
    case JObj(_) => ParsesObject(first, text, s, v, e);
    case _ => ParsesWord(first, text, s, v, e);
  }
}
