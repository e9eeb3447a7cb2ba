/** Texts of a value with blanks in them.
  *
  * Tokens lists what is printed of a value, piece by piece, and Woven puts any blanks
  * before, between and after the pieces; with no blanks it is the text the printer makes
  * (StrIsWoven).  EndOf walks through such a text, guided by the value, and says where the
  * value ends; WovenIsSpelled says that it gets through every woven text.
  */
module JsonSpacing {
  import opened Options
  import opened JsonMachine
  import opened JsonPrint

  // --------------------------------------------------------------- tokens and blanks

  /** What JSON allows between tokens (section 2 of RFC 8259). */
  predicate Space(c: char) {
    c == 0x20 as char || c == 0x09 as char || c == 0x0A as char || c == 0x0D as char
  }

  predicate AllSpace(s: string) {
    forall k | 0 <= k < |s| :: Space(s[k])
  }

  function Tokens(v: Json): (t: seq<string>)
    requires Printable(v)
    ensures |t| > 0
    decreases v, 0
  {
    match v
    case JArr(items) => ["["] + ItemTokens(items, 0)
    case JObj(members) => ["{"] + MemberTokens(members, 0)
    case _ => [Str(v)]
  }

  /** The tokens of an array from element j on. */
  function ItemTokens(items: seq<Json>, j: nat): seq<string>
    requires j <= |items| && forall k | 0 <= k < |items| :: Printable(items[k])
    decreases items, |items| - j
  {
    if j == |items| then ["]"]
    else (if j > 0 then [","] else []) + (Tokens(items[j]) + ItemTokens(items, j + 1))
  }

  function MemberTokens(members: seq<Member>, j: nat): seq<string>
    requires j <= |members|
    requires forall k | 0 <= k < |members| :: Ascii(members[k].key) && Printable(members[k].value)
    decreases members, |members| - j
  {
    if j == |members| then ["}"]
    else (if j > 0 then [","] else []) + ([Quote(members[j].key), ":"] +
         (Tokens(members[j].value) + MemberTokens(members, j + 1)))
  }

  /** A gap, a token, a gap, and so on to the last gap. */
  function Woven(tokens: seq<string>, gaps: seq<string>): string
    requires |gaps| == |tokens| + 1
  {
    if tokens == [] then gaps[0] else gaps[0] + (tokens[0] + Woven(tokens[1..], gaps[1..]))
  }

  // ---------------------------------------------------------------- text positions

  /** w stands in text at position i. */
  predicate HasAt(text: string, i: nat, w: string) {
    i + |w| <= |text| && text[i..i + |w|] == w
  }

  lemma {:induction false} HasBoth(text: string, i: nat, a: string, b: string)
    ensures HasAt(text, i, a + b) <==> HasAt(text, i, a) && HasAt(text, i + |a|, b)
  {
    if HasAt(text, i, a + b) {
      assert text[i..i + |a|] == (a + b)[..|a|];
      assert text[i + |a|..i + |a| + |b|] == (a + b)[|a|..];
    }
    if HasAt(text, i, a) && HasAt(text, i + |a|, b) {
      assert text[i..i + |a + b|] == text[i..i + |a|] + text[i + |a|..i + |a| + |b|];
    }
  }

  lemma {:induction false} HasHead(text: string, i: nat, w: string)
    requires HasAt(text, i, w) && w != []
    ensures i < |text| && text[i] == w[0] && At(text, i) == w[0]
    ensures HasAt(text, i + 1, w[1..])
  {
    assert w == [w[0]] + w[1..];
    HasBoth(text, i, [w[0]], w[1..]);
    assert text[i..i + 1][0] == w[0];
  }

  /** The first position from i on that holds no blank. */
  function Past(text: string, i: nat): (b: nat)
    requires i <= |text|
    ensures i <= b <= |text| && AllSpace(text[i..b])
    ensures b < |text| ==> !Space(text[b])
    decreases |text| - i
  {
    if i < |text| && Space(text[i]) then
      var b := Past(text, i + 1);
      assert text[i..b] == [text[i]] + text[i + 1..b];
      b
    else i
  }

  /** Where v ends, if its tokens stand in text from i on. */
  function EndOf(text: string, i: nat, v: Json): (e: Option<nat>)
    requires Printable(v)
    ensures e.Some? ==> i <= e.value <= |text|
    decreases v, 0
  {
    match v
    case JArr(items) => if HasAt(text, i, "[") then ItemsEnd(text, i + 1, items, 0) else None
    case JObj(members) => if HasAt(text, i, "{") then MembersEnd(text, i + 1, members, 0) else None
    case _ => if HasAt(text, i, Str(v)) then Some(i + |Str(v)|) else None
  }

  /** ... from element j of an array on. */
  function ItemsEnd(text: string, i: nat, items: seq<Json>, j: nat): (e: Option<nat>)
    requires i <= |text| && j <= |items| && forall k | 0 <= k < |items| :: Printable(items[k])
    ensures e.Some? ==> i <= e.value <= |text|
    decreases items, |items| - j
  {
    var b := Past(text, i);
    if j == |items| then (if HasAt(text, b, "]") then Some(b + 1) else None)
    else if j > 0 && !HasAt(text, b, ",") then None
    else
      match EndOf(text, if j > 0 then Past(text, b + 1) else b, items[j])
      case None => None
      case Some(e) => ItemsEnd(text, e, items, j + 1)
  }

  /** ... from member j of an object on. */
  function MembersEnd(text: string, i: nat, members: seq<Member>, j: nat): (e: Option<nat>)
    requires i <= |text| && j <= |members|
    requires forall k | 0 <= k < |members| :: Ascii(members[k].key) && Printable(members[k].value)
    ensures e.Some? ==> i <= e.value <= |text|
    decreases members, |members| - j
  {
    var b := Past(text, i);
    if j == |members| then (if HasAt(text, b, "}") then Some(b + 1) else None)
    else if j > 0 && !HasAt(text, b, ",") then None
    else
      match MemberEnd(text, if j > 0 then Past(text, b + 1) else b, members, j)
      case None => None
      case Some(e) => MembersEnd(text, e, members, j + 1)
  }

  /** Where the value of member j ends, its key standing at k. */
  function MemberEnd(text: string, k: nat, members: seq<Member>, j: nat): (e: Option<nat>)
    requires k <= |text| && j < |members|
    requires forall k | 0 <= k < |members| :: Ascii(members[k].key) && Printable(members[k].value)
    ensures e.Some? ==> k <= e.value <= |text|
    decreases members, |members| - j, 0
  {
    if !HasAt(text, k, Quote(members[j].key)) then None
    else
      var c := Past(text, k + |Quote(members[j].key)|);
      if !HasAt(text, c, ":") then None else EndOf(text, Past(text, c + 1), members[j].value)
  }

  /** The whole text is v, with blanks. */
  predicate Spelled(text: string, v: Json) {
    && Printable(v) && NoNul(text)
    && var e := EndOf(text, Past(text, 0), v);
       e.Some? && Past(text, e.value) == |text|
  }

  // ----------------------------------------------------------- woven texts are spelled

  /** The tokens stand in text from i on, with blanks between, up to the end. */
  predicate Follow(text: string, i: nat, tokens: seq<string>)
    decreases |tokens|
  {
    && i <= |text|
    && var b := Past(text, i);
       if tokens == [] then b == |text|
       else HasAt(text, b, tokens[0]) && Follow(text, b + |tokens[0]|, tokens[1..])
  }

  predicate Solid(token: string) {
    token != "" && !Space(token[0]) && NoNul(token)
  }

  lemma {:induction false} PastGap(text: string, i: nat, gap: string)
    requires HasAt(text, i, gap) && AllSpace(gap) && (i + |gap| < |text| ==> !Space(text[i + |gap|]))
    ensures Past(text, i) == i + |gap|
    decreases |gap|
  {
    if gap != "" {
      HasHead(text, i, gap);
      PastGap(text, i + 1, gap[1..]);
    }
  }

  lemma {:induction false} HasLength(text: string, i: nat, w: string)
    requires HasAt(text, i, w)
    ensures i + |w| <= |text|
  {
  }

  lemma {:induction false} WovenFollows(text: string, i: nat, tokens: seq<string>, gaps: seq<string>)
    requires |gaps| == |tokens| + 1 && HasAt(text, i, Woven(tokens, gaps)) && i + |Woven(tokens, gaps)| == |text|
    requires (forall g | g in gaps :: AllSpace(g)) && forall t | t in tokens :: Solid(t)
    ensures Follow(text, i, tokens)
    decreases |tokens|
  {
    hide Past, NoNul, AllSpace, HasAt;
    assert gaps[0] in gaps;
    HasLength(text, i, Woven(tokens, gaps));
    if tokens == [] {
      PastGap(text, i, gaps[0]);
    } else {
      assert tokens[0] in tokens && forall t | t in tokens[1..] :: t in tokens;
      assert forall g | g in gaps[1..] :: g in gaps;
      var rest := Woven(tokens[1..], gaps[1..]);
      HasBoth(text, i, gaps[0], tokens[0] + rest);
      HasBoth(text, i + |gaps[0]|, tokens[0], rest);
      HasHead(text, i + |gaps[0]|, tokens[0]);
      HasLength(text, i + |gaps[0]|, tokens[0]);
      PastGap(text, i, gaps[0]);
      WovenFollows(text, i + |gaps[0]| + |tokens[0]|, tokens[1..], gaps[1..]);
    }
  }

  lemma {:induction false} FollowStep(text: string, i: nat, t: string, rest: seq<string>)
    requires Follow(text, i, [t] + rest)
    ensures i <= |text| && HasAt(text, Past(text, i), t) && Follow(text, Past(text, i) + |t|, rest)
  {
    assert ([t] + rest)[1..] == rest;
  }

  lemma {:induction false} FollowEnds(text: string, i: nat, v: Json, rest: seq<string>)
    requires Printable(v) && Follow(text, i, Tokens(v) + rest)
    ensures i <= |text| && EndOf(text, Past(text, i), v).Some?
    ensures Follow(text, EndOf(text, Past(text, i), v).value, rest)
    decreases v, 0
  {
    hide Past, Follow, Str, Quote;
    match v
    case JArr(items) =>
      assert Tokens(v) + rest == ["["] + (ItemTokens(items, 0) + rest);
      FollowStep(text, i, "[", ItemTokens(items, 0) + rest);
      FollowItems(text, Past(text, i) + 1, items, 0, rest);
    case JObj(members) =>
      assert Tokens(v) + rest == ["{"] + (MemberTokens(members, 0) + rest);
      FollowStep(text, i, "{", MemberTokens(members, 0) + rest);
      FollowMembers(text, Past(text, i) + 1, members, 0, rest);
    case _ => FollowStep(text, i, Str(v), rest);
  }

  lemma {:induction false} FollowItems(text: string, i: nat, items: seq<Json>, j: nat, rest: seq<string>)
    requires j <= |items| && forall k | 0 <= k < |items| :: Printable(items[k])
    requires Follow(text, i, ItemTokens(items, j) + rest)
    ensures i <= |text| && ItemsEnd(text, i, items, j).Some?
    ensures Follow(text, ItemsEnd(text, i, items, j).value, rest)
    decreases items, |items| - j
  {
    hide Past, Follow, Tokens, EndOf;
    if j == |items| {
      FollowStep(text, i, "]", rest);
    } else {
      var more := ItemTokens(items, j + 1) + rest;
      var from := i;
      if j > 0 {
        assert ItemTokens(items, j) + rest == [","] + (Tokens(items[j]) + more);
        FollowStep(text, i, ",", Tokens(items[j]) + more);
        from := Past(text, i) + 1;
      } else {
        assert ItemTokens(items, j) + rest == Tokens(items[j]) + more;
      }
      FollowEnds(text, from, items[j], more);
      FollowItems(text, EndOf(text, Past(text, from), items[j]).value, items, j + 1, rest);
    }
  }

  lemma {:induction false} FollowMembers(text: string, i: nat, members: seq<Member>, j: nat, rest: seq<string>)
    requires j <= |members|
    requires forall k | 0 <= k < |members| :: Ascii(members[k].key) && Printable(members[k].value)
    requires Follow(text, i, MemberTokens(members, j) + rest)
    ensures i <= |text| && MembersEnd(text, i, members, j).Some?
    ensures Follow(text, MembersEnd(text, i, members, j).value, rest)
    decreases members, |members| - j
  {
    hide Past, Follow, Tokens, MemberEnd, Quote;
    if j == |members| {
      FollowStep(text, i, "}", rest);
    } else {
      var m := members[j];
      var more := MemberTokens(members, j + 1) + rest;
      var toks := [Quote(m.key)] + ([":"] + (Tokens(m.value) + more));
      var from := i;
      if j > 0 {
        assert MemberTokens(members, j) + rest == [","] + toks;
        FollowStep(text, i, ",", toks);
        from := Past(text, i) + 1;
      } else {
        assert MemberTokens(members, j) + rest == toks;
      }
      FollowMember(text, from, members, j, more);
      FollowMembers(text, MemberEnd(text, Past(text, from), members, j).value, members, j + 1, rest);
    }
  }

  lemma {:induction false} FollowMember(text: string, i: nat, members: seq<Member>, j: nat, more: seq<string>)
    requires j < |members|
    requires forall k | 0 <= k < |members| :: Ascii(members[k].key) && Printable(members[k].value)
    requires Follow(text, i, [Quote(members[j].key)] + ([":"] + (Tokens(members[j].value) + more)))
    ensures i <= |text| && MemberEnd(text, Past(text, i), members, j).Some?
    ensures Follow(text, MemberEnd(text, Past(text, i), members, j).value, more)
    decreases members, |members| - j, 0
  {
    hide Past, Follow, Tokens, EndOf, Quote;
    var m := members[j];
    FollowStep(text, i, Quote(m.key), [":"] + (Tokens(m.value) + more));
    var k := Past(text, i);
    FollowStep(text, k + |Quote(m.key)|, ":", Tokens(m.value) + more);
    FollowEnds(text, Past(text, k + |Quote(m.key)|) + 1, m.value, more);
  }

  // --------------------------------------------------------------- the tokens are solid

  predicate AllSolid(tokens: seq<string>) {
    forall t | t in tokens :: Solid(t)
  }

  lemma {:induction false} StrSolid(v: Json)
    requires Printable(v)
    ensures Solid(Str(v))
  {
    hide Digits;
    StrNoNul(v);
    match v
    case JInt(n) => assert Digit(Digits(if n < 0 then -n else n)[0]);
    case _ =>
  }

  lemma {:induction false} QuoteSolid(s: string)
    requires Ascii(s)
    ensures Solid(Quote(s))
  {
    QuoteNoNul(s);
  }

  lemma {:induction false} TokensSolid(v: Json)
    requires Printable(v)
    ensures AllSolid(Tokens(v))
    decreases v, 0
  {
    hide Solid;
    match v
    case JArr(items) =>
      MarksSolid();
      ItemsSolid(items, 0);
    case JObj(members) =>
      MarksSolid();
      MembersSolid(members, 0);
    case _ => StrSolid(v);
  }

  lemma {:induction false} MarksSolid()
    ensures Solid("[") && Solid("]") && Solid("{") && Solid("}") && Solid(",") && Solid(":")
  {
  }

  lemma {:induction false} ItemsSolid(items: seq<Json>, j: nat)
    requires j <= |items| && forall k | 0 <= k < |items| :: Printable(items[k])
    ensures AllSolid(ItemTokens(items, j))
    decreases items, |items| - j
  {
    hide Solid, Tokens;
    MarksSolid();
    if j < |items| {
      TokensSolid(items[j]);
      ItemsSolid(items, j + 1);
    }
  }

  lemma {:induction false} MembersSolid(members: seq<Member>, j: nat)
    requires j <= |members|
    requires forall k | 0 <= k < |members| :: Ascii(members[k].key) && Printable(members[k].value)
    ensures AllSolid(MemberTokens(members, j))
    decreases members, |members| - j
  {
    hide Solid, Tokens, Quote;
    MarksSolid();
    if j < |members| {
      QuoteSolid(members[j].key);
      TokensSolid(members[j].value);
      MembersSolid(members, j + 1);
    }
  }

  lemma {:induction false} WovenNoNul(tokens: seq<string>, gaps: seq<string>)
    requires |gaps| == |tokens| + 1 && AllSolid(tokens) && forall g | g in gaps :: AllSpace(g)
    ensures NoNul(Woven(tokens, gaps))
    decreases |tokens|
  {
    assert gaps[0] in gaps;
    assert NoNul(gaps[0]);
    if tokens != [] {
      assert tokens[0] in tokens;
      WovenNoNul(tokens[1..], gaps[1..]);
      NoNulConcat(tokens[0], Woven(tokens[1..], gaps[1..]));
      NoNulConcat(gaps[0], tokens[0] + Woven(tokens[1..], gaps[1..]));
    }
  }

  /** The text of v with any blanks. */
  lemma {:induction false} WovenIsSpelled(v: Json, gaps: seq<string>)
    requires Printable(v) && |gaps| == |Tokens(v)| + 1 && forall g | g in gaps :: AllSpace(g)
    ensures Spelled(Woven(Tokens(v), gaps), v)
  {
    hide Past, Tokens, Woven, Solid;
    var text := Woven(Tokens(v), gaps);
    TokensSolid(v);
    WovenNoNul(Tokens(v), gaps);
    assert text[0..0 + |text|] == text;
    WovenFollows(text, 0, Tokens(v), gaps);
    assert Tokens(v) + [] == Tokens(v);
    FollowEnds(text, 0, v, []);
  }

  // ------------------------------------------------------------- the printer's own text

  function Concat(tokens: seq<string>): string {
    if tokens == [] then "" else tokens[0] + Concat(tokens[1..])
  }

  lemma {:induction false} ConcatBoth(a: seq<string>, b: seq<string>)
    ensures Concat(a + b) == Concat(a) + Concat(b)
    decreases |a|
  {
    if a == [] {
      assert a + b == b;
    } else {
      assert (a + b)[1..] == a[1..] + b;
      ConcatBoth(a[1..], b);
      assert a[0] + (Concat(a[1..]) + Concat(b)) == (a[0] + Concat(a[1..])) + Concat(b);
    }
  }

  lemma {:induction false} ConcatOne(t: string, rest: seq<string>)
    ensures Concat([t] + rest) == t + Concat(rest)
  {
    assert ([t] + rest)[1..] == rest;
  }

  lemma {:induction false} StrConcat(v: Json)
    requires Printable(v)
    ensures Str(v) == Concat(Tokens(v))
    decreases v, 0
  {
    hide Str, Concat;
    ConcatNone();
    match v
    case JArr(items) =>
      StrArray(items);
      ConcatOne("[", ItemTokens(items, 0));
      ItemsConcat(items, 0);
    case JObj(members) =>
      StrObject(members);
      ConcatOne("{", MemberTokens(members, 0));
      MembersConcat(members, 0);
    case _ =>
      ConcatOne(Str(v), []);
      assert [Str(v)] + [] == [Str(v)];
  }

  lemma {:induction false} ConcatNone()
    ensures Concat([]) == ""
  {
  }

  lemma {:induction false} ItemsConcat(items: seq<Json>, j: nat)
    requires j <= |items| && forall k | 0 <= k < |items| :: Printable(items[k])
    ensures ItemsFrom(items, j) == Concat(ItemTokens(items, j))
    decreases items, |items| - j
  {
    hide Str, Concat, Tokens;
    ConcatNone();
    ConcatOne("]", []);
    assert ["]"] + [] == ["]"];
    if j < |items| {
      var tail := Tokens(items[j]) + ItemTokens(items, j + 1);
      StrConcat(items[j]);
      ItemsConcat(items, j + 1);
      ConcatBoth(Tokens(items[j]), ItemTokens(items, j + 1));
      ConcatOne(",", tail);
      assert [] + tail == tail;
    }
  }

  lemma {:induction false} MembersConcat(members: seq<Member>, j: nat)
    requires j <= |members|
    requires forall k | 0 <= k < |members| :: Ascii(members[k].key) && Printable(members[k].value)
    ensures MembersFrom(members, j) == Concat(MemberTokens(members, j))
    decreases members, |members| - j
  {
    hide Str, Concat, Tokens, Quote;
    ConcatNone();
    ConcatOne("}", []);
    assert ["}"] + [] == ["}"];
    if j < |members| {
      var m := members[j];
      var tail := Tokens(m.value) + MemberTokens(members, j + 1);
      StrConcat(m.value);
      MembersConcat(members, j + 1);
      ConcatBoth(Tokens(m.value), MemberTokens(members, j + 1));
      ConcatOne(":", tail);
      ConcatOne(Quote(m.key), [":"] + tail);
      var all := [Quote(m.key)] + ([":"] + tail);
      assert [Quote(m.key), ":"] + tail == all;
      ConcatOne(",", all);
      assert [] + all == all;
    }
  }

  lemma {:induction false} WovenTight(tokens: seq<string>)
    ensures Woven(tokens, seq(|tokens| + 1, k => "")) == Concat(tokens)
    decreases |tokens|
  {
    var gaps := seq(|tokens| + 1, k => "");
    if tokens != [] {
      WovenTight(tokens[1..]);
      assert gaps[1..] == seq(|tokens[1..]| + 1, k => "");
    }
  }

  /** The printer leaves no blanks. */
  lemma {:induction false} StrIsWoven(v: Json)
    requires Printable(v)
    ensures Str(v) == Woven(Tokens(v), seq(|Tokens(v)| + 1, k => ""))
    ensures Spelled(Str(v), v)
  {
    hide Str, Woven, Spelled, Concat, Tokens;
    StrConcat(v);
    WovenTight(Tokens(v));
    WovenIsSpelled(v, seq(|Tokens(v)| + 1, k => ""));
  }
}
