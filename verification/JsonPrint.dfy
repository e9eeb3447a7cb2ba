/** The compact text JSON.stringify produces for plain values. */
module JsonPrint {
  import opened Options
  import opened JsonMachine

  datatype Json =
    | JNull
    | JBool(b: bool)
    | JInt(n: int)
    | JStr(s: string)
    | JArr(items: seq<Json>)
    | JObj(members: seq<Member>)

  datatype Member = Member(key: string, value: Json)

  // ------------------------------------------------------------------ strings

  function HexDigit(d: nat): char
    requires d < 16
  {
    if d < 10 then ('0' as int + d) as char else ('a' as int + d - 10) as char
  }

  /** The characters quote replaces, among those up to 0x7F. */
  predicate Escapable(c: char) {
    c == '\\' || c == '"' || c < 0x20 as char || c == 0x7F as char
  }

  /** meta, or \u with four hexadecimal digits. */
  function EscapeChar(c: char): (r: string)
    requires c as int <= 0x7F
    ensures |r| >= 1
  {
    if !Escapable(c) then [c]
    else if c == 8 as char then ['\\', 'b']
    else if c == '\t' then ['\\', 't']
    else if c == '\n' then ['\\', 'n']
    else if c == 12 as char then ['\\', 'f']
    else if c == '\r' then ['\\', 'r']
    else if c == '"' then ['\\', '"']
    else if c == '\\' then ['\\', '\\']
    else ['\\', 'u', '0', '0', HexDigit(c as int / 16), HexDigit(c as int % 16)]
  }

  predicate Ascii(s: string) {
    forall k | 0 <= k < |s| :: s[k] as int <= 0x7F
  }

  function EscapeAll(s: string): string
    requires Ascii(s)
  {
    if s == [] then [] else EscapeChar(s[0]) + EscapeAll(s[1..])
  }

  function Quote(s: string): string
    requires Ascii(s)
  {
    "\"" + EscapeAll(s) + "\""
  }

  // ------------------------------------------------------------------ numbers

  function Digits(n: nat): (r: string)
    ensures |r| >= 1 && forall k | 0 <= k < |r| :: Digit(r[k])
    ensures DecimalValue(r) == n
  {
    var last := ('0' as int + n % 10) as char;
    assert last as int - '0' as int == n % 10;
    if n < 10 then
      assert [last][..0] == [];
      [last]
    else
      var r := Digits(n / 10) + [last];
      assert r[..|r| - 1] == Digits(n / 10);
      r
  }

  function Decimal(n: int): (r: string)
    ensures |r| >= 1
  {
    if n < 0 then "-" + Digits(-n) else Digits(n)
  }

  // ------------------------------------------------------------------- values

  const MAX_EXACT: int := 0x20_0000_0000_0000

  /** The values the round trip is about: numbers every double holds exactly, strings of
    * code units up to 0x7F, and nothing longer than the parser's length counters. */
  predicate Printable(v: Json) {
    match v
    case JNull => true
    case JBool(_) => true
    case JInt(n) => -MAX_EXACT <= n <= MAX_EXACT
    case JStr(s) => Ascii(s) && |s| <= LIMIT
    case JArr(items) => |items| <= LIMIT && forall k | 0 <= k < |items| :: Printable(items[k])
    case JObj(members) =>
      |members| <= LIMIT && forall k | 0 <= k < |members| ::
        Ascii(members[k].key) && |members[k].key| <= LIMIT && Printable(members[k].value)
  }

  /** partial.join(',') */
  function Join(parts: seq<string>): string {
    if parts == [] then []
    else if |parts| == 1 then parts[0]
    else parts[0] + "," + Join(parts[1..])
  }

  /** str, without replacer and indentation. */
  function Str(v: Json): string
    requires Printable(v)
    decreases v
  {
    match v
    case JNull => "null"
    case JBool(b) => if b then "true" else "false"
    case JInt(n) => Decimal(n)
    case JStr(s) => Quote(s)
    case JArr(items) =>
      "[" + Join(seq(|items|, k requires 0 <= k < |items| => Str(items[k]))) + "]"
    case JObj(members) =>
      "{" + Join(seq(|members|, k requires 0 <= k < |members| =>
                       Quote(members[k].key) + ":" + Str(members[k].value))) + "}"
  }

  /** What is printed of an array from element j on, separator included. */
  function ItemsFrom(items: seq<Json>, j: nat): string
    requires j <= |items| && forall k | 0 <= k < |items| :: Printable(items[k])
    decreases items, |items| - j
  {
    if j == |items| then "]"
    else (if j > 0 then "," else "") + (Str(items[j]) + ItemsFrom(items, j + 1))
  }

  function MembersFrom(members: seq<Member>, j: nat): string
    requires j <= |members|
    requires forall k | 0 <= k < |members| :: Ascii(members[k].key) && Printable(members[k].value)
    decreases members, |members| - j
  {
    if j == |members| then "}"
    else (if j > 0 then "," else "") +
         (Quote(members[j].key) + (":" + (Str(members[j].value) + MembersFrom(members, j + 1))))
  }

  lemma {:induction false} Regroup(a: string, b: string, c: string, d: string, e: string)
    ensures a + (b + (c + d + e)) == a + (b + c + d) + e
  {
  }

  /** One step of Join against the running form, for any closing bracket. */
  lemma {:induction false} JoinStep(parts: seq<string>, j: nat, rest: string, close: string)
    requires j < |parts|
    requires rest == (if j + 1 < |parts| then "," else "") + Join(parts[j + 1..]) + close
    ensures (if j > 0 then "," else "") + (parts[j] + rest)
      == (if 0 < j < |parts| then "," else "") + Join(parts[j..]) + close
  {
    var sep := if j > 0 then "," else "";
    assert parts[j..][1..] == parts[j + 1..];
    if j + 1 < |parts| {
      Regroup(sep, parts[j], ",", Join(parts[j + 1..]), close);
    } else {
      Regroup(sep, parts[j], "", "", close);
      assert parts[j] + "" + "" == parts[j];
    }
  }

  lemma {:induction false} JoinItems(items: seq<Json>, parts: seq<string>, j: nat)
    requires j <= |items| == |parts| && forall k | 0 <= k < |items| :: Printable(items[k])
    requires forall k | 0 <= k < |items| :: parts[k] == Str(items[k])
    ensures ItemsFrom(items, j) == (if 0 < j < |items| then "," else "") + Join(parts[j..]) + "]"
    decreases |items| - j
  {
    hide Str, Join;
    if j < |items| {
      JoinItems(items, parts, j + 1);
      JoinStep(parts, j, ItemsFrom(items, j + 1), "]");
    } else {
      JoinNone(parts);
    }
  }

  lemma {:induction false} JoinNone(parts: seq<string>)
    ensures Join(parts[|parts|..]) == []
  {
  }

  lemma {:induction false} JoinMembers(members: seq<Member>, parts: seq<string>, j: nat)
    requires j <= |members| == |parts|
    requires forall k | 0 <= k < |members| :: Ascii(members[k].key) && Printable(members[k].value)
    requires forall k | 0 <= k < |members| :: parts[k] == Quote(members[k].key) + ":" + Str(members[k].value)
    ensures MembersFrom(members, j) == (if 0 < j < |members| then "," else "") + Join(parts[j..]) + "}"
    decreases |members| - j
  {
    hide Str, Join, Quote;
    if j < |members| {
      JoinMembers(members, parts, j + 1);
      JoinStep(parts, j, MembersFrom(members, j + 1), "}");
      var rest := MembersFrom(members, j + 1);
      var q, v := Quote(members[j].key), Str(members[j].value);
      assert q + (":" + (v + rest)) == q + ":" + v + rest;
    } else {
      JoinNone(parts);
    }
  }

  lemma {:induction false} StrArray(items: seq<Json>)
    requires Printable(JArr(items))
    ensures Str(JArr(items)) == "[" + ItemsFrom(items, 0)
  {
    var parts := seq(|items|, k requires 0 <= k < |items| => Str(items[k]));
    JoinItems(items, parts, 0);
    assert parts[0..] == parts;
  }

  lemma {:induction false} StrObject(members: seq<Member>)
    requires Printable(JObj(members))
    ensures Str(JObj(members)) == "{" + MembersFrom(members, 0)
  {
    var parts := seq(|members|, k requires 0 <= k < |members| =>
                       Quote(members[k].key) + ":" + Str(members[k].value));
    JoinMembers(members, parts, 0);
    assert parts[0..] == parts;
  }

  // ------------------------------------------------------ printed text has no NUL

  lemma {:induction false} NoNulConcat(a: string, b: string)
    ensures NoNul(a + b) <==> NoNul(a) && NoNul(b)
  {
    if NoNul(a + b) {
      assert forall k | 0 <= k < |a| :: a[k] == (a + b)[k];
      assert forall k | 0 <= k < |b| :: b[k] == (a + b)[|a| + k];
    }
  }

  lemma {:induction false} EscapeNoNul(s: string)
    requires Ascii(s)
    ensures NoNul(EscapeAll(s))
  {
    if s != [] {
      EscapeNoNul(s[1..]);
      NoNulConcat(EscapeChar(s[0]), EscapeAll(s[1..]));
    }
  }

  lemma {:induction false} QuoteNoNul(s: string)
    requires Ascii(s)
    ensures NoNul(Quote(s))
  {
    EscapeNoNul(s);
    NoNulConcat("\"" + EscapeAll(s), "\"");
    NoNulConcat("\"", EscapeAll(s));
  }

  lemma {:induction false} StrNoNul(v: Json)
    requires Printable(v)
    ensures NoNul(Str(v))
    decreases v, 0
  {
    match v
    case JNull =>
    case JBool(b) =>
    case JInt(n) =>
      NoNulConcat("-", Digits(if n < 0 then -n else n));
    case JStr(s) => QuoteNoNul(s);
    case JArr(items) =>
      StrArray(items);
      ItemsNoNul(items, 0);
      NoNulConcat("[", ItemsFrom(items, 0));
    case JObj(members) =>
      StrObject(members);
      MembersNoNul(members, 0);
      NoNulConcat("{", MembersFrom(members, 0));
  }

  lemma {:induction false} ItemsNoNul(items: seq<Json>, j: nat)
    requires j <= |items| && forall k | 0 <= k < |items| :: Printable(items[k])
    ensures NoNul(ItemsFrom(items, j))
    decreases items, |items| - j
  {
    if j < |items| {
      StrNoNul(items[j]);
      ItemsNoNul(items, j + 1);
      NoNulConcat(Str(items[j]), ItemsFrom(items, j + 1));
      NoNulConcat(if j > 0 then "," else "", Str(items[j]) + ItemsFrom(items, j + 1));
    }
  }

  lemma {:induction false} MembersNoNul(members: seq<Member>, j: nat)
    requires j <= |members|
    requires forall k | 0 <= k < |members| :: Ascii(members[k].key) && Printable(members[k].value)
    ensures NoNul(MembersFrom(members, j))
    decreases members, |members| - j
  {
    if j < |members| {
      var m := members[j];
      QuoteNoNul(m.key);
      StrNoNul(m.value);
      MembersNoNul(members, j + 1);
      NoNulConcat(Str(m.value), MembersFrom(members, j + 1));
      NoNulConcat(":", Str(m.value) + MembersFrom(members, j + 1));
      NoNulConcat(Quote(m.key), ":" + (Str(m.value) + MembersFrom(members, j + 1)));
      NoNulConcat(if j > 0 then "," else "", Quote(m.key) + (":" + (Str(m.value) + MembersFrom(members, j + 1))));
    }
  }
}
