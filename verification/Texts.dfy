/** The string operations of the address printer and parser: splitting, joining and the
  * numerals that int() reads.  Decimal numerals are those of the JSON modules. */
module Texts {
  import opened Options
  import M = JsonMachine
  import P = JsonPrint

  // ------------------------------------------------------------ splitting and joining

  /** str.find, with the length of the text for "not found". */
  function Find(text: string, c: char): (pos: nat)
    ensures pos <= |text| && (pos < |text| ==> text[pos] == c)
    ensures forall k | 0 <= k < pos :: text[k] != c
  {
    if text == "" || text[0] == c then 0 else 1 + Find(text[1..], c)
  }

  /** str.split on one character. */
  function SplitOn(text: string, c: char): (parts: seq<string>)
    ensures |parts| >= 1
    decreases |text|
  {
    var pos := Find(text, c);
    if pos == |text| then [text] else [text[..pos]] + SplitOn(text[pos + 1..], c)
  }

  /** c.join */
  function JoinBy(parts: seq<string>, c: char): string {
    if parts == [] then ""
    else if |parts| == 1 then parts[0]
    else parts[0] + ([c] + JoinBy(parts[1..], c))
  }

  lemma {:induction false} FindAfter(a: string, c: char, rest: string)
    requires c !in a
    ensures Find(a + ([c] + rest), c) == |a|
    ensures (a + ([c] + rest))[..|a|] == a && (a + ([c] + rest))[|a| + 1..] == rest
  {
    var text := a + ([c] + rest);
    assert text[|a|] == c;
    assert forall k | 0 <= k < |a| :: text[k] == a[k];
  }

  lemma {:induction false} SplitOne(a: string, c: char)
    requires c !in a
    ensures Find(a, c) == |a| && SplitOn(a, c) == [a]
  {
  }

  lemma {:induction false} SplitOfJoin(parts: seq<string>, c: char)
    requires parts != [] && forall p | p in parts :: c !in p
    ensures SplitOn(JoinBy(parts, c), c) == parts
    decreases |parts|
  {
    hide Find, SplitOn;
    assert parts[0] in parts;
    if |parts| == 1 {
      SplitOne(parts[0], c);
      assert parts == [parts[0]];
    } else {
      assert forall p | p in parts[1..] :: p in parts;
      SplitOfJoin(parts[1..], c);
      SplitStep(parts[0], c, JoinBy(parts[1..], c));
      assert parts == [parts[0]] + parts[1..];
    }
  }

  lemma {:induction false} SplitStep(a: string, c: char, rest: string)
    requires c !in a
    ensures SplitOn(a + ([c] + rest), c) == [a] + SplitOn(rest, c)
  {
    FindAfter(a, c, rest);
  }

  lemma {:induction false} JoinFree(parts: seq<string>, c: char, d: char)
    requires d != c && forall p | p in parts :: d !in p
    ensures d !in JoinBy(parts, c)
    decreases |parts|
  {
    if |parts| > 0 {
      assert parts[0] in parts;
      assert forall p | p in parts[1..] :: p in parts;
      JoinFree(parts[1..], c, d);
    }
  }

  lemma {:induction false} JoinHas(parts: seq<string>, c: char)
    requires |parts| >= 2
    ensures c in JoinBy(parts, c)
  {
    assert JoinBy(parts, c)[|parts[0]|] == c;
  }

  // ------------------------------------------------------------------ hexadecimal

  predicate HexChar(c: char) {
    '0' <= c <= '9' || 'a' <= c <= 'f' || 'A' <= c <= 'F'
  }

  function HexOf(c: char): (d: nat)
    requires HexChar(c)
    ensures d < 16
  {
    if '0' <= c <= '9' then c as int - '0' as int
    else if 'a' <= c <= 'f' then c as int - 'a' as int + 10
    else c as int - 'A' as int + 10
  }

  predicate AllHex(s: string) {
    forall k | 0 <= k < |s| :: HexChar(s[k])
  }

  function HexValue(s: string): nat
    requires AllHex(s)
  {
    if s == "" then 0 else 16 * HexValue(s[..|s| - 1]) + HexOf(s[|s| - 1])
  }

  /** %x */
  function Hex(n: nat): (s: string)
    ensures |s| >= 1 && AllHex(s) && HexValue(s) == n
    ensures s == "0" <==> n == 0
  {
    var d := P.HexDigit(n % 16);
    assert HexChar(d) && HexOf(d) == n % 16;
    if n < 16 then
      assert [d][..0] == [];
      [d]
    else
      var s := Hex(n / 16) + [d];
      assert s[..|s| - 1] == Hex(n / 16);
      s
  }

  /** The last w hexadecimal digits of n. */
  function HexDigits(n: nat, w: nat): (s: string)
    ensures |s| == w && AllHex(s)
  {
    if w == 0 then ""
    else
      assert HexChar(P.HexDigit(n % 16));
      HexDigits(n / 16, w - 1) + [P.HexDigit(n % 16)]
  }

  /** %04x */
  function Hex4(n: nat): string {
    HexDigits(n, 4)
  }

  lemma {:induction false} Hex4Value(n: nat)
    requires n < 0x1_0000
    ensures AllHex(Hex4(n)) && HexValue(Hex4(n)) == n
  {
    var n1, n2, n3 := n / 16, n / 16 / 16, n / 16 / 16 / 16;
    assert n3 < 16;
    DigitStep(n, 3);
    DigitStep(n1, 2);
    DigitStep(n2, 1);
    DigitStep(n3, 0);
  }

  lemma {:induction false} DigitStep(n: nat, w: nat)
    ensures HexValue(HexDigits(n, w + 1)) == 16 * HexValue(HexDigits(n / 16, w)) + n % 16
  {
    var d := P.HexDigit(n % 16);
    assert HexChar(d) && HexOf(d) == n % 16;
    var s := HexDigits(n, w + 1);
    assert s[..w] == HexDigits(n / 16, w);
  }

  // ------------------------------------------------------------------------ int()

  function Unsigned(s: string): (string, bool) {
    if s != "" && s[0] == '-' then (s[1..], true)
    else if s != "" && s[0] == '+' then (s[1..], false)
    else (s, false)
  }

  /** int(s, 10) */
  function Int10(s: string): Option<int> {
    var (digits, minus) := Unsigned(s);
    if digits == "" || exists k | 0 <= k < |digits| :: !M.Digit(digits[k]) then None
    else
      var n: int := M.DecimalValue(digits);
      Some(if minus then -n else n)
  }

  /** int(s, 16), which also takes a 0x before the digits. */
  function Int16(s: string): Option<int> {
    var (rest, minus) := Unsigned(s);
    var digits := if |rest| >= 2 && rest[0] == '0' && (rest[1] == 'x' || rest[1] == 'X') then rest[2..] else rest;
    if digits == "" || !AllHex(digits) then None
    else
      var n: int := HexValue(digits);
      Some(if minus then -n else n)
  }

  lemma {:induction false} Int16OfHex(s: string)
    requires s != "" && AllHex(s)
    ensures Int16(s) == Some(HexValue(s))
  {
    assert HexChar(s[0]);
    assert |s| >= 2 ==> HexChar(s[1]);
  }

  lemma {:induction false} Int10OfDigits(n: nat)
    ensures Int10(P.Digits(n)) == Some(n)
  {
    var s := P.Digits(n);
    assert M.Digit(s[0]);
  }

  /** A character that belongs to no number makes int() fail. */
  lemma {:induction false} IntNeeds(s: string, c: char)
    requires c in s && !HexChar(c) && c != '-' && c != '+' && c != 'x' && c != 'X'
    ensures Int10(s) == None && Int16(s) == None
  {
    var k :| 0 <= k < |s| && s[k] == c;
    var (rest, minus) := Unsigned(s);
    if s != "" && (s[0] == '-' || s[0] == '+') {
      assert rest[k - 1] == c;
    }
    assert c in rest;
    var m :| 0 <= m < |rest| && rest[m] == c;
    assert !M.Digit(rest[m]);
    if |rest| >= 2 && rest[0] == '0' && (rest[1] == 'x' || rest[1] == 'X') {
      assert rest[2..][m - 2] == c;
    }
  }
}
