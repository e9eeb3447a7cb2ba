/** Different values print differently: the printed text of a value tells the value, and
  * where it ends, whatever follows it in an array or object. */
module JsonUnique {
  import opened JsonMachine
  import opened JsonPrint

  /** What may follow a value in a printed text. */
  predicate Stops(rest: string) {
    rest == "" || rest[0] == ',' || rest[0] == ']' || rest[0] == '}'
  }

  lemma {:induction false} DropHead(c: char, a: string, d: char, b: string)
    requires [c] + a == [d] + b
    ensures c == d && a == b
  {
    assert ([c] + a)[0] == c && ([d] + b)[0] == d;
    assert ([c] + a)[1..] == a && ([d] + b)[1..] == b;
  }

  lemma {:induction false} DropCommon(p: string, a: string, b: string)
    requires p + a == p + b
    ensures a == b
  {
    assert (p + a)[|p|..] == a && (p + b)[|p|..] == b;
  }

  lemma {:induction false} Assoc(a: string, b: string, c: string)
    ensures (a + b) + c == a + (b + c)
  {
  }

  // ------------------------------------------------------------------ the pieces

  lemma {:induction false} EscapeTellsChar(c: char, d: char, a: string, b: string)
    requires c as int <= 0x7F && d as int <= 0x7F && EscapeChar(c) + a == EscapeChar(d) + b
    ensures c == d && a == b
  {
    var s, t := EscapeChar(c) + a, EscapeChar(d) + b;
    assert s[0] == EscapeChar(c)[0] && t[0] == EscapeChar(d)[0];
    if Escapable(c) {
      assert s[1] == EscapeChar(c)[1] && t[1] == EscapeChar(d)[1];
      if EscapeChar(c)[1] == 'u' {
        assert s[4] == EscapeChar(c)[4] && s[5] == EscapeChar(c)[5];
        assert t[4] == EscapeChar(d)[4] && t[5] == EscapeChar(d)[5];
      }
    }
    DropCommon(EscapeChar(c), a, b);
  }

  lemma {:induction false} EscapesTellString(s: string, t: string, a: string, b: string)
    requires Ascii(s) && Ascii(t) && EscapeAll(s) + ("\"" + a) == EscapeAll(t) + ("\"" + b)
    ensures s == t && a == b
    decreases |s|
  {
    hide EscapeChar;
    var l, r := EscapeAll(s) + ("\"" + a), EscapeAll(t) + ("\"" + b);
    EscapesBegin(s, "\"" + a);
    EscapesBegin(t, "\"" + b);
    if s == "" {
      assert l == ['"'] + a && r == ['"'] + b;
      DropHead('"', a, '"', b);
    } else {
      Assoc(EscapeChar(s[0]), EscapeAll(s[1..]), "\"" + a);
      Assoc(EscapeChar(t[0]), EscapeAll(t[1..]), "\"" + b);
      EscapeTellsChar(s[0], t[0], EscapeAll(s[1..]) + ("\"" + a), EscapeAll(t[1..]) + ("\"" + b));
      EscapesTellString(s[1..], t[1..], a, b);
    }
  }

  lemma {:induction false} EscapesBegin(s: string, rest: string)
    requires Ascii(s) && rest != "" && rest[0] == '"'
    ensures EscapeAll(s) + rest != "" && ((EscapeAll(s) + rest)[0] == '"' <==> s == "")
  {
  }

  lemma {:induction false} QuoteTellsString(s: string, t: string, a: string, b: string)
    requires Ascii(s) && Ascii(t) && Quote(s) + a == Quote(t) + b
    ensures s == t && a == b
  {
    hide EscapeAll;
    assert Quote(s) + a == ['"'] + (EscapeAll(s) + ("\"" + a));
    assert Quote(t) + b == ['"'] + (EscapeAll(t) + ("\"" + b));
    DropHead('"', EscapeAll(s) + ("\"" + a), '"', EscapeAll(t) + ("\"" + b));
    EscapesTellString(s, t, a, b);
  }

  lemma {:induction false} DigitsTellEnd(x: string, y: string, a: string, b: string)
    requires x + a == y + b && |x| <= |y|
    requires forall k | 0 <= k < |y| :: Digit(y[k])
    requires a == "" || !Digit(a[0])
    ensures x == y && a == b
  {
    assert a != "" ==> (x + a)[|x|] == a[0];
    assert |x| == |y|;
    assert (x + a)[..|x|] == x && (y + b)[..|y|] == y;
    DropCommon(x, a, b);
  }

  function Sign(n: int): string {
    if n < 0 then "-" else ""
  }

  function Abs(n: int): nat {
    if n < 0 then -n else n
  }

  lemma {:induction false} DecimalParts(n: int, a: string)
    ensures var x := Digits(Abs(n));
      && Decimal(n) + a == Sign(n) + (x + a) && DecimalValue(x) == Abs(n)
      && (forall k | 0 <= k < |x| :: Digit(x[k]))
      && ((Decimal(n) + a)[0] == '-' <==> n < 0)
  {
    hide Digits;
    var x := Digits(Abs(n));
    assert Decimal(n) == Sign(n) + x;
    Assoc(Sign(n), x, a);
    assert Digit(x[0]);
    assert (Decimal(n) + a)[0] == Decimal(n)[0];
  }

  lemma {:induction false} DecimalTellsNumber(n: int, m: int, a: string, b: string)
    requires Decimal(n) + a == Decimal(m) + b && Stops(a) && Stops(b)
    ensures n == m && a == b
  {
    hide Digits, Decimal, DecimalValue;
    var x, y := Digits(Abs(n)), Digits(Abs(m));
    DecimalParts(n, a);
    DecimalParts(m, b);
    DropCommon(Sign(n), x + a, y + b);
    if |x| <= |y| {
      DigitsTellEnd(x, y, a, b);
    } else {
      DigitsTellEnd(y, x, b, a);
    }
  }

  // ------------------------------------------------------------------ the values

  /** The first character of a value tells its type, and is no bracket or comma. */
  predicate Begins(v: Json, c: char) {
    match v
    case JNull => c == 'n'
    case JBool(b) => c == if b then 't' else 'f'
    case JInt(_) => Digit(c) || c == '-'
    case JStr(_) => c == '"'
    case JArr(_) => c == '['
    case JObj(_) => c == '{'
  }

  lemma {:induction false} StrBegins(v: Json, rest: string)
    requires Printable(v)
    ensures Str(v) + rest != "" && Begins(v, (Str(v) + rest)[0])
  {
    hide Digits;
    match v
    case JInt(n) => assert Digit(Digits(if n < 0 then -n else n)[0]);
    case _ =>
  }

  /** The same text holds the same value and ends it at the same place. */
  lemma {:induction false} TextTellsValue(v: Json, w: Json, a: string, b: string)
    requires Printable(v) && Printable(w) && Str(v) + a == Str(w) + b && Stops(a) && Stops(b)
    ensures v == w && a == b
    decreases v, 0
  {
    hide Str, Decimal, Quote;
    StrBegins(v, a);
    StrBegins(w, b);
    match v
    case JNull => WordTellsValue(v, w, a, b);
    case JBool(_) => WordTellsValue(v, w, a, b);
    case JInt(n) =>
      IntIs(n);
      IntIs(w.n);
      DecimalTellsNumber(n, w.n, a, b);
    case JStr(s) =>
      StringIs(s);
      StringIs(w.s);
      QuoteTellsString(s, w.s, a, b);
    case JArr(items) =>
      StrArray(items);
      StrArray(w.items);
      Assoc("[", ItemsFrom(items, 0), a);
      Assoc("[", ItemsFrom(w.items, 0), b);
      DropCommon("[", ItemsFrom(items, 0) + a, ItemsFrom(w.items, 0) + b);
      TextTellsItems(items, w.items, 0, a, b);
    case JObj(members) =>
      StrObject(members);
      StrObject(w.members);
      Assoc("{", MembersFrom(members, 0), a);
      Assoc("{", MembersFrom(w.members, 0), b);
      DropCommon("{", MembersFrom(members, 0) + a, MembersFrom(w.members, 0) + b);
      TextTellsMembers(members, w.members, 0, a, b);
  }

  lemma {:induction false} IntIs(n: int)
    requires Printable(JInt(n))
    ensures Str(JInt(n)) == Decimal(n)
  {
  }

  lemma {:induction false} StringIs(s: string)
    requires Printable(JStr(s))
    ensures Str(JStr(s)) == Quote(s)
  {
  }

  lemma {:induction false} WordTellsValue(v: Json, w: Json, a: string, b: string)
    requires Printable(v) && Printable(w) && (v.JNull? || v.JBool?) && Str(v) + a == Str(w) + b
    requires Begins(w, (Str(v) + a)[0]) && Begins(v, (Str(v) + a)[0])
    ensures v == w && a == b
  {
    hide Str;
    assert v == w;
    DropCommon(Str(v), a, b);
  }

  lemma {:induction false} ItemsBegin(items: seq<Json>, j: nat, rest: string)
    requires j <= |items| && forall k | 0 <= k < |items| :: Printable(items[k])
    ensures var s := ItemsFrom(items, j) + rest;
      s != "" && (j == |items| <==> s[0] == ']') && (0 < j < |items| ==> s[0] == ',')
  {
    hide Str;
    if j == 0 && 0 < |items| {
      StrBegins(items[0], ItemsFrom(items, 1) + rest);
      Assoc(Str(items[0]), ItemsFrom(items, 1), rest);
    }
  }

  lemma {:induction false} TextTellsItems(items: seq<Json>, other: seq<Json>, j: nat, a: string, b: string)
    requires j <= |items| && j <= |other| && items[..j] == other[..j] && Stops(a) && Stops(b)
    requires forall k | 0 <= k < |items| :: Printable(items[k])
    requires forall k | 0 <= k < |other| :: Printable(other[k])
    requires ItemsFrom(items, j) + a == ItemsFrom(other, j) + b
    ensures items == other && a == b
    decreases items, |items| - j
  {
    hide Str;
    ItemsBegin(items, j, a);
    ItemsBegin(other, j, b);
    if j == |items| {
      DropHead(']', a, ']', b);
      assert items[..j] == items && other[..j] == other;
    } else {
      var sep := if j > 0 then "," else "";
      var x, y := Str(items[j]), Str(other[j]);
      var p, q := ItemsFrom(items, j + 1), ItemsFrom(other, j + 1);
      assert ItemsFrom(items, j) + a == sep + (x + (p + a));
      assert ItemsFrom(other, j) + b == sep + (y + (q + b));
      DropCommon(sep, x + (p + a), y + (q + b));
      ItemsBegin(items, j + 1, a);
      ItemsBegin(other, j + 1, b);
      TextTellsValue(items[j], other[j], p + a, q + b);
      assert items[..j + 1] == items[..j] + [items[j]] && other[..j + 1] == other[..j] + [other[j]];
      TextTellsItems(items, other, j + 1, a, b);
    }
  }

  lemma {:induction false} MembersBegin(members: seq<Member>, j: nat, rest: string)
    requires j <= |members|
    requires forall k | 0 <= k < |members| :: Ascii(members[k].key) && Printable(members[k].value)
    ensures var s := MembersFrom(members, j) + rest;
      s != "" && (j == |members| <==> s[0] == '}') && (0 < j < |members| ==> s[0] == ',')
  {
    hide Str, EscapeAll;
  }

  lemma {:induction false} TextTellsMembers(members: seq<Member>, other: seq<Member>, j: nat, a: string, b: string)
    requires j <= |members| && j <= |other| && members[..j] == other[..j] && Stops(a) && Stops(b)
    requires forall k | 0 <= k < |members| :: Ascii(members[k].key) && Printable(members[k].value)
    requires forall k | 0 <= k < |other| :: Ascii(other[k].key) && Printable(other[k].value)
    requires MembersFrom(members, j) + a == MembersFrom(other, j) + b
    ensures members == other && a == b
    decreases members, |members| - j
  {
    hide Str, Quote;
    MembersBegin(members, j, a);
    MembersBegin(other, j, b);
    if j == |members| {
      DropHead('}', a, '}', b);
      assert members[..j] == members && other[..j] == other;
    } else {
      var m, n := members[j], other[j];
      var sep := if j > 0 then "," else "";
      var p, q := MembersFrom(members, j + 1) + a, MembersFrom(other, j + 1) + b;
      var x, y := Str(m.value) + p, Str(n.value) + q;
      MemberFirst(members, j, a);
      MemberFirst(other, j, b);
      DropCommon(sep, Quote(m.key) + (":" + x), Quote(n.key) + (":" + y));
      QuoteTellsString(m.key, n.key, ":" + x, ":" + y);
      DropCommon(":", x, y);
      MembersBegin(members, j + 1, a);
      MembersBegin(other, j + 1, b);
      TextTellsValue(m.value, n.value, p, q);
      assert members[..j + 1] == members[..j] + [m] && other[..j + 1] == other[..j] + [n];
      TextTellsMembers(members, other, j + 1, a, b);
    }
  }

  lemma {:induction false} MemberFirst(members: seq<Member>, j: nat, a: string)
    requires j < |members|
    requires forall k | 0 <= k < |members| :: Ascii(members[k].key) && Printable(members[k].value)
    ensures MembersFrom(members, j) + a == (if j > 0 then "," else "") +
      (Quote(members[j].key) + (":" + (Str(members[j].value) + (MembersFrom(members, j + 1) + a))))
  {
    hide Str, Quote;
    var sep := if j > 0 then "," else "";
    var k, v, rest := Quote(members[j].key), Str(members[j].value), MembersFrom(members, j + 1);
    Assoc(v, rest, a);
    Assoc(":", v + rest, a);
    Assoc(k, ":" + (v + rest), a);
    Assoc(sep, k + (":" + (v + rest)), a);
  }

  /** Different values print differently. */
  lemma {:induction false} PrintingIsInjective(v: Json, w: Json)
    requires Printable(v) && Printable(w) && Str(v) == Str(w)
    ensures v == w
  {
    hide Str;
    assert Str(v) + "" == Str(v) && Str(w) + "" == Str(w);
    TextTellsValue(v, w, "", "");
  }
}
