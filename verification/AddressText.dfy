/** Addresses as text: what IPy prints and what it reads back.
  *
  * Main results: every IPv6 address printed in compressed form parses to itself
  * (CompressedParsesBack), with the leftmost longest run of zero groups left out
  * (CompressesLongestRun); every IPv4 address printed in dotted form parses to itself
  * (DottedParsesBack); and a network printed and read again is the same network
  * (ReadNetwork).
  */
module AddressText {
  import opened Options
  import opened Cidr
  import opened Texts
  import Netmask
  import M = JsonMachine
  import P = JsonPrint

  const GROUP: nat := 0x1_0000
  const MAX_IPV4: nat := 0xFFFF_FFFF
  const MAX_IPV6: nat := 0xFFFF_FFFF_FFFF_FFFF_FFFF_FFFF_FFFF_FFFF

  // -------------------------------------------------------------- numbers in groups

  /** The last n digits of x in base b, most significant first. */
  function Groups(x: nat, n: nat, b: nat): (g: seq<nat>)
    requires b > 0
    ensures |g| == n && forall k | 0 <= k < n :: g[k] < b
    decreases n
  {
    if n == 0 then []
    else
      DivMod(x, b);
      Groups(x / b, n - 1, b) + [x % b]
  }

  lemma {:induction false} DivMod(x: nat, b: nat)
    requires b > 0
    ensures 0 <= x / b && 0 <= x % b < b && x == x / b * b + x % b
  {
  }

  /** The number whose base-b digits these are. */
  function Join(g: seq<nat>, b: nat): nat {
    if g == [] then 0 else Join(g[..|g| - 1], b) * b + g[|g| - 1]
  }

  function Power(b: nat, n: nat): nat {
    if n == 0 then 1 else b * Power(b, n - 1)
  }

  lemma {:induction false} JoinGroups(x: nat, n: nat, b: nat)
    requires b > 0 && x < Power(b, n)
    ensures Join(Groups(x, n, b), b) == x
    decreases n
  {
    if n == 0 {
      PowerStep(b, n);
    } else {
      hide Power, Join, Groups;
      PowerStep(b, n);
      DivMod(x, b);
      DivBelow(x, b, Power(b, n - 1));
      GroupsStep(x, n, b);
      JoinGroups(x / b, n - 1, b);
    }
  }

  lemma {:induction false} PowerStep(b: nat, n: nat)
    ensures Power(b, n) == if n == 0 then 1 else b * Power(b, n - 1)
  {
  }

  lemma {:induction false} GroupsStep(x: nat, n: nat, b: nat)
    requires b > 0 && n > 0
    ensures 0 <= x / b && 0 <= x % b
    ensures Join(Groups(x, n, b), b) == Join(Groups(x / b, n - 1, b), b) * b + x % b
  {
    DivMod(x, b);
    var init := Groups(x / b, n - 1, b);
    JoinStep(init, x % b, b);
  }

  lemma {:induction false} JoinStep(init: seq<nat>, d: nat, b: nat)
    ensures Join(init + [d], b) == Join(init, b) * b + d
  {
    assert (init + [d])[..|init|] == init;
  }

  lemma {:induction false} DivBelow(x: nat, b: nat, m: nat)
    requires b > 0 && x < b * m
    ensures x / b < m
  {
    DivMod(x, b);
    if x / b >= m {
      MulMono(m, x / b, b);
    }
  }

  function Hextets(x: nat): seq<nat> {
    Groups(x, 8, GROUP)
  }

  function Octets(x: nat): seq<nat> {
    Groups(x, 4, 256)
  }

  // ----------------------------------------------------------------------- parsing

  /** The value of up to four decimal bytes, the rest taken as 0. */
  function Bytes(parts: seq<string>): Option<seq<nat>>
    decreases |parts|
  {
    if parts == [] then Some([])
    else
      match (Int10(parts[0]), Bytes(parts[1..]))
      case (Some(n), Some(rest)) => if 0 <= n <= 255 then Some([n] + rest) else None
      case _ => None
  }

  function ParseV4(text: string): Option<nat> {
    var parts := SplitOn(text, '.');
    if |parts| > 4 then None
    else
      match Bytes(parts + seq(4 - |parts|, k => "0"))
      case None => None
      case Some(b) => Some(Join(b, 256))
  }

  datatype Split = BadSplit | Split(items: seq<string>, fill: Option<nat>)

  function StartsDouble(text: string): bool {
    |text| >= 2 && text[0] == ':' && text[1] == ':'
  }

  /** The loop over the text: the groups and where the '::' stands among them. */
  function Scan(text: string, items: seq<string>, fill: Option<nat>): Split
    decreases |text|
  {
    if text == "" then Split(items, fill)
    else if StartsDouble(text) then
      if fill.Some? then BadSplit else Scan(text[2..], items, Some(|items|))
    else
      var pos := Find(text, ':');
      if pos == 0 then BadSplit
      else if pos == |text| then Split(items + [text], fill)
      else
        var rest := if StartsDouble(text[pos..]) then text[pos..] else text[pos + 1..];
        if rest == "" then BadSplit else Scan(rest, items + [text[..pos]], fill)
  }

  /** An IPv4 address in the last place stands for two groups. */
  function ExpandV4(items: seq<string>, fill: Option<nat>): Option<seq<string>> {
    if items != [] && '.' in items[|items| - 1] then
      if fill.Some? && !(fill.value <= |items| - 1) then None
      else
        match ParseV4(items[|items| - 1])
        case None => None
        case Some(v) => Some(items[..|items| - 1] + [Hex4(v / GROUP), Hex4(v % GROUP)])
    else Some(items)
  }

  /** '::' stands for as many zero groups as are missing. */
  function ExpandFill(items: seq<string>, fill: Option<nat>): Option<seq<string>>
    requires fill.Some? ==> fill.value <= |items|
  {
    match fill
    case None => if |items| == 8 then Some(items) else None
    case Some(at) =>
      if |items| >= 8 then None
      else Some(items[..at] + seq(8 - |items|, k => "0") + items[at..])
  }

  /** The final loop over the groups. */
  function Fold(items: seq<string>, value: nat): Option<nat>
    decreases |items|
  {
    if items == [] then Some(value)
    else
      match Int16(items[0])
      case None => None
      case Some(n) => if 0 <= n <= 0xFFFF then Fold(items[1..], value * GROUP + n) else None
  }

  lemma {:induction false} ScanFill(text: string, items: seq<string>, fill: Option<nat>)
    requires fill.Some? ==> fill.value <= |items|
    ensures var r := Scan(text, items, fill); r.Split? && r.fill.Some? ==> r.fill.value <= |r.items|
    decreases |text|
  {
    if text == "" {
    } else if StartsDouble(text) {
      if fill.None? {
        ScanFill(text[2..], items, Some(|items|));
      }
    } else {
      var pos := Find(text, ':');
      if 0 < pos < |text| {
        var rest := if StartsDouble(text[pos..]) then text[pos..] else text[pos + 1..];
        ScanFill(rest, items + [text[..pos]], fill);
      }
    }
  }

  /** _parseAddressIPv6; None stands for ValueError. */
  function ParseV6(text: string): Option<nat> {
    ScanFill(text, [], None);
    match Scan(text, [], None)
    case BadSplit => None
    case Split(items, fill) =>
      match ExpandV4(items, fill)
      case None => None
      case Some(more) =>
        match ExpandFill(more, fill)
        case None => None
        case Some(groups) => Fold(groups, 0)
  }

  /** parseAddress: the address and the guessed version. */
  function ParseAddress(text: string): Option<(int, Version)> {
    var hexval, intval := Int16(text), Int10(text);
    if |text| >= 2 && text[..2] == "0x" && hexval.Some? then
      if hexval.value > MAX_IPV6 then None
      else if hexval.value <= MAX_IPV4 then Some((hexval.value, V4))
      else Some((hexval.value, V6))
    else if ':' in text then
      match ParseV6(text)
      case None => None
      case Some(v) => Some((v, V6))
    else if |text| == 32 && hexval.Some? then Some((hexval.value, V6))
    else if '.' in text || (intval.Some? && intval.value < 256) then
      match ParseV4(text)
      case None => None
      case Some(v) => Some((v, V4))
    else if intval.Some? then
      if intval.value > MAX_IPV6 then None
      else if intval.value <= MAX_IPV4 then Some((intval.value, V4))
      else Some((intval.value, V6))
    else None
  }

  /** What _parseAddressIPv6 gets from parseAddress for a last part with a dot. */
  lemma {:induction false} DottedIsV4(text: string)
    requires '.' in text && ':' !in text
    ensures ParseAddress(text) == match ParseV4(text) case None => None case Some(v) => Some((v, V4))
  {
    IntNeeds(text, '.');
  }

  // ---------------------------------------------------------------------- printing

  function DecimalTexts(g: seq<nat>): (r: seq<string>)
    ensures |r| == |g| && forall k | 0 <= k < |g| :: r[k] == P.Digits(g[k])
  {
    seq(|g|, k requires 0 <= k < |g| => P.Digits(g[k]))
  }

  function HexTexts(g: seq<nat>): (r: seq<string>)
    ensures |r| == |g| && forall k | 0 <= k < |g| :: r[k] == Hex(g[k])
  {
    seq(|g|, k requires 0 <= k < |g| => Hex(g[k]))
  }

  /** intToIp for IPv4. */
  function Dotted(x: nat): string {
    JoinBy(DecimalTexts(Octets(x)), '.')
  }

  /** _countFollowingZeros */
  function ZerosAt(h: seq<nat>, i: nat): (n: nat)
    requires i <= |h|
    ensures i + n <= |h| && forall k | i <= k < i + n :: h[k] == 0
    ensures i + n < |h| ==> h[i + n] != 0
    decreases |h| - i
  {
    if i == |h| || h[i] != 0 then 0 else 1 + ZerosAt(h, i + 1)
  }

  /** The first place with the most zeros after it, among places before n. */
  function LongestRun(h: seq<nat>, n: nat): (i: nat)
    requires 0 < n <= |h|
    ensures i < n
    ensures forall k | 0 <= k < n :: ZerosAt(h, k) <= ZerosAt(h, i)
    ensures forall k | 0 <= k < i :: ZerosAt(h, k) < ZerosAt(h, i)
  {
    if n == 1 then 0
    else
      var best := LongestRun(h, n - 1);
      if ZerosAt(h, n - 1) > ZerosAt(h, best) then n - 1 else best
  }

  /** strCompressed of an IPv6 address, without the prefix length. */
  function Compressed(x: nat): string {
    if x / 0x1_0000_0000 == 0xFFFF then "::ffff:" + Dotted(x % 0x1_0000_0000)
    else
      var h := Hextets(x);
      var at := LongestRun(h, 8);
      var n := ZerosAt(h, at);
      if n > 1 then JoinBy(HexTexts(h[..at]), ':') + "::" + JoinBy(HexTexts(h[at + n..]), ':')
      else JoinBy(HexTexts(h), ':')
  }

  // ------------------------------------------------------------------- IPv4 round trip

  lemma {:induction false} DigitsNoDot(n: nat, c: char)
    requires !M.Digit(c)
    ensures c !in P.Digits(n)
  {
  }

  lemma {:induction false} BytesOfDigits(g: seq<nat>)
    requires forall k | 0 <= k < |g| :: g[k] < 256
    ensures Bytes(DecimalTexts(g)) == Some(g)
    decreases |g|
  {
    if g != [] {
      Int10OfDigits(g[0]);
      assert DecimalTexts(g)[1..] == DecimalTexts(g[1..]);
      BytesOfDigits(g[1..]);
      assert g == [g[0]] + g[1..];
    }
  }

  lemma {:induction false} DottedText(x: nat)
    ensures '.' in Dotted(x) && ':' !in Dotted(x) && '-' !in Dotted(x) && '/' !in Dotted(x)
    ensures SplitOn(Dotted(x), '.') == DecimalTexts(Octets(x))
    ensures Dotted(x) != ""
  {
    var parts := DecimalTexts(Octets(x));
    forall p, c: char | p in parts && !M.Digit(c) ensures c !in p {
      var k :| 0 <= k < |parts| && parts[k] == p;
      DigitsNoDot(Octets(x)[k], c);
    }
    SplitOfJoin(parts, '.');
    JoinHas(parts, '.');
    JoinFree(parts, '.', ':');
    JoinFree(parts, '.', '-');
    JoinFree(parts, '.', '/');
  }

  lemma {:induction false} ParseV4OfDotted(x: nat)
    requires x <= MAX_IPV4
    ensures ParseV4(Dotted(x)) == Some(x)
  {
    hide Groups, Join;
    DottedText(x);
    var g := Octets(x);
    BytesOfDigits(g);
    var parts := DecimalTexts(g);
    assert parts + seq(4 - |parts|, k => "0") == parts;
    FourPowers();
    JoinGroups(x, 4, 256);
  }

  lemma {:induction false} FourPowers()
    ensures Power(256, 4) == MAX_IPV4 + 1
  {
    assert Power(256, 1) == 256 * Power(256, 0);
    assert Power(256, 2) == 256 * Power(256, 1);
    assert Power(256, 3) == 256 * Power(256, 2);
  }

  lemma {:induction false} DottedParsesBack(x: nat)
    requires x <= MAX_IPV4
    ensures ParseAddress(Dotted(x)) == Some((x, V4))
  {
    hide Dotted, ParseV4;
    DottedText(x);
    DottedIsV4(Dotted(x));
    ParseV4OfDotted(x);
  }

  // ------------------------------------------------------------------- IPv6 round trip

  /** A group as it may stand between colons. */
  predicate Item(s: string) {
    s != "" && ':' !in s
  }

  lemma {:induction false} HexItem(n: nat)
    ensures Item(Hex(n)) && '.' !in Hex(n) && '-' !in Hex(n) && '/' !in Hex(n)
  {
    assert forall k | 0 <= k < |Hex(n)| :: HexChar(Hex(n)[k]);
  }

  lemma {:induction false} HexTextsItems(g: seq<nat>)
    ensures forall s | s in HexTexts(g) :: Item(s) && '.' !in s && '-' !in s && '/' !in s
  {
    forall s | s in HexTexts(g) ensures Item(s) && '.' !in s && '-' !in s && '/' !in s {
      var k :| 0 <= k < |g| && HexTexts(g)[k] == s;
      HexItem(g[k]);
    }
  }

  lemma {:induction false} NotDouble(s: string, rest: string)
    requires Item(s)
    ensures !StartsDouble(s + rest) && s + rest != ""
  {
    assert (s + rest)[0] == s[0] && s[0] in s;
  }

  /** One group followed by a colon and another group. */
  lemma {:induction false} ScanOne(a: string, rest: string, items: seq<string>, fill: Option<nat>)
    requires Item(a) && rest != "" && rest[0] != ':'
    ensures Scan(a + ([':'] + rest), items, fill) == Scan(rest, items + [a], fill)
  {
    hide Scan, Find;
    NotDouble(a, [':'] + rest);
    FindAfter(a, ':', rest);
    var text := a + ([':'] + rest);
    assert text[|a|..] == [':'] + rest;
    ScanStep(text, items, fill);
  }

  /** One group followed by '::'. */
  lemma {:induction false} ScanToDouble(a: string, rest: string, items: seq<string>, fill: Option<nat>)
    requires Item(a)
    ensures Scan(a + ([':'] + ([':'] + rest)), items, fill) == Scan([':'] + ([':'] + rest), items + [a], fill)
  {
    NotDouble(a, [':'] + ([':'] + rest));
    FindAfter(a, ':', [':'] + rest);
    var text := a + ([':'] + ([':'] + rest));
    assert text[|a|..] == [':'] + ([':'] + rest);
  }

  lemma {:induction false} ScanLast(a: string, items: seq<string>, fill: Option<nat>)
    requires Item(a)
    ensures Scan(a, items, fill) == Split(items + [a], fill)
  {
    NotDouble(a, "");
    assert a + "" == a;
    SplitOne(a, ':');
  }

  lemma {:induction false} JoinHead(parts: seq<string>)
    requires parts != [] && forall p | p in parts :: Item(p)
    ensures JoinBy(parts, ':') != "" && JoinBy(parts, ':')[0] != ':'
  {
    assert parts[0] in parts && parts[0][0] in parts[0];
  }

  /** Groups up to the end of the text. */
  lemma {:induction false} ScanToEnd(parts: seq<string>, items: seq<string>, fill: Option<nat>)
    requires parts != [] && forall p | p in parts :: Item(p)
    ensures Scan(JoinBy(parts, ':'), items, fill) == Split(items + parts, fill)
    decreases |parts|
  {
    hide Scan, Item, Find;
    assert parts[0] in parts;
    if |parts| == 1 {
      ScanLast(parts[0], items, fill);
      assert parts == [parts[0]];
    } else {
      var rest := parts[1..];
      assert forall p | p in rest :: p in parts;
      JoinHead(rest);
      ScanOne(parts[0], JoinBy(rest, ':'), items, fill);
      ScanToEnd(rest, items + [parts[0]], fill);
      assert items + [parts[0]] + rest == items + parts;
    }
  }

  lemma {:induction false} JoinBefore(parts: seq<string>, tail: string)
    requires parts != []
    ensures JoinBy(parts, ':') + tail
      == if |parts| == 1 then parts[0] + tail else parts[0] + ([':'] + (JoinBy(parts[1..], ':') + tail))
  {
    if |parts| > 1 {
      Regroups(parts[0], [':'], JoinBy(parts[1..], ':'), tail);
    }
  }

  lemma {:induction false} Regroups(a: string, sep: string, b: string, tail: string)
    ensures a + (sep + b) + tail == a + (sep + (b + tail))
  {
  }

  /** Groups up to a '::'. */
  lemma {:induction false} ScanToFill(parts: seq<string>, items: seq<string>, tail: string, fill: Option<nat>)
    requires parts != [] && forall p | p in parts :: Item(p)
    ensures Scan(JoinBy(parts, ':') + ([':'] + ([':'] + tail)), items, fill)
      == Scan([':'] + ([':'] + tail), items + parts, fill)
    decreases |parts|
  {
    hide Scan, Item, Find, StartsDouble, JoinBy;
    assert parts[0] in parts;
    var double := [':'] + ([':'] + tail);
    JoinBefore(parts, double);
    if |parts| == 1 {
      ScanToDouble(parts[0], tail, items, fill);
      assert parts == [parts[0]];
    } else {
      var rest := parts[1..];
      assert forall p | p in rest :: p in parts;
      JoinHead(rest);
      var text := JoinBy(rest, ':') + double;
      ScanOne(parts[0], text, items, fill);
      ScanToFill(rest, items + [parts[0]], tail, fill);
      assert items + [parts[0]] + rest == items + parts;
    }
  }

  lemma {:induction false} ScanDouble(tail: string, items: seq<string>)
    ensures Scan([':'] + ([':'] + tail), items, None) == Scan(tail, items, Some(|items|))
  {
    var double := [':'] + ([':'] + tail);
    assert StartsDouble(double) && double[2..] == tail;
  }

  lemma {:induction false} ScanNothing(items: seq<string>, fill: Option<nat>)
    ensures Scan("", items, fill) == Split(items, fill)
  {
  }

  /** Groups, '::', groups. */
  lemma {:induction false} ScanFilled(pre: seq<string>, post: seq<string>)
    requires (forall p | p in pre :: Item(p)) && (forall p | p in post :: Item(p))
    ensures Scan(JoinBy(pre, ':') + "::" + JoinBy(post, ':'), [], None) == Split(pre + post, Some(|pre|))
  {
    hide Item, Find, Scan;
    var tail := JoinBy(post, ':');
    var double := [':'] + ([':'] + tail);
    assert JoinBy(pre, ':') + "::" + tail == JoinBy(pre, ':') + double;
    if pre == [] {
      assert JoinBy(pre, ':') + double == double;
    } else {
      ScanToFill(pre, [], tail, None);
      assert [] + pre == pre;
    }
    ScanDouble(tail, pre);
    if post == [] {
      assert pre + post == pre;
      ScanNothing(pre, Some(|pre|));
      assert tail == "";
    } else {
      ScanToEnd(post, pre, Some(|pre|));
    }
  }

  lemma {:induction false} FoldJoins(items: seq<string>, g: seq<nat>, value: nat)
    requires |items| == |g| && forall k | 0 <= k < |g| :: g[k] < GROUP && Int16(items[k]) == Some(g[k])
    ensures Fold(items, value).Some? && Fold(items, value).value == JoinOn(g, value)
    decreases |g|
  {
    if g != [] {
      FoldJoins(items[1..], g[1..], value * GROUP + g[0]);
    }
  }

  /** Join, from the front. */
  function JoinOn(g: seq<nat>, value: nat): nat
    decreases |g|
  {
    if g == [] then value else JoinOn(g[1..], value * GROUP + g[0])
  }

  lemma {:induction false} JoinOnIsJoin(g: seq<nat>, tail: seq<nat>)
    ensures JoinOn(tail, Join(g, GROUP)) == Join(g + tail, GROUP)
    decreases |tail|
  {
    if tail == [] {
      assert g + tail == g;
    } else {
      JoinStep(g, tail[0], GROUP);
      JoinOnIsJoin(g + [tail[0]], tail[1..]);
      assert g + [tail[0]] + tail[1..] == g + tail;
    }
  }

  lemma {:induction false} FoldOfHex(items: seq<string>, g: seq<nat>)
    requires |items| == |g| && forall k | 0 <= k < |g| :: g[k] < GROUP && Int16(items[k]) == Some(g[k])
    ensures Fold(items, 0).Some? && Fold(items, 0).value == Join(g, GROUP)
  {
    FoldJoins(items, g, 0);
    JoinOnIsJoin([], g);
    assert [] + g == g;
  }

  lemma {:induction false} HexReads(g: seq<nat>)
    ensures forall k | 0 <= k < |g| :: Int16(HexTexts(g)[k]) == Some(g[k])
  {
    forall k | 0 <= k < |g| ensures Int16(HexTexts(g)[k]) == Some(g[k]) {
      Int16OfHex(Hex(g[k]));
    }
  }

  lemma {:induction false} LastHasNoDot(items: seq<string>)
    requires forall s | s in items :: '.' !in s
    ensures items != [] ==> '.' !in items[|items| - 1]
  {
  }

  /** The end of the parse, once the groups are known. */
  lemma {:induction false} ParsesTo(text: string, items: seq<string>, fill: Option<nat>, groups: seq<string>,
          g: seq<nat>)
    requires Scan(text, [], None) == Split(items, fill) && (forall s | s in items :: '.' !in s)
    requires fill.Some? ==> fill.value <= |items|
    requires ExpandFill(items, fill) == Some(groups) && |groups| == |g|
    requires forall k | 0 <= k < |g| :: g[k] < GROUP && Int16(groups[k]) == Some(g[k])
    ensures ParseV6(text) == Some(Join(g, GROUP))
  {
    hide Scan, Fold, Join, ParseV4, ExpandFill, Int16;
    LastHasNoDot(items);
    assert ExpandV4(items, fill) == Some(items);
    FoldOfHex(groups, g);
  }

  /** Groups with a filled gap parse to the number with zeros in the gap. */
  lemma {:induction false} ParsesFilled(h: seq<nat>, at: nat, n: nat)
    requires |h| == 8 && 0 < n && at + n <= 8 && (forall k | 0 <= k < 8 :: h[k] < GROUP)
    requires forall k | at <= k < at + n :: h[k] == 0
    ensures ParseV6(JoinBy(HexTexts(h[..at]), ':') + "::" + JoinBy(HexTexts(h[at + n..]), ':'))
      == Some(Join(h, GROUP))
  {
    hide Scan, Join, Item, JoinBy, Int16, ParseV6, HexTexts;
    var pre, post := HexTexts(h[..at]), HexTexts(h[at + n..]);
    HexTextsItems(h[..at]);
    HexTextsItems(h[at + n..]);
    ScanFilled(pre, post);
    var items := pre + seq(n, k => "0") + post;
    FilledReads(h, at, n);
    assert (pre + post)[..at] == pre && (pre + post)[at..] == post;
    ParsesTo(JoinBy(pre, ':') + "::" + JoinBy(post, ':'), pre + post, Some(|pre|), items, h);
  }

  lemma {:induction false} FilledReads(h: seq<nat>, at: nat, n: nat)
    requires |h| == 8 && at + n <= 8 && forall k | at <= k < at + n :: h[k] == 0
    ensures var items := HexTexts(h[..at]) + seq(n, k => "0") + HexTexts(h[at + n..]);
      |items| == 8 && forall k | 0 <= k < 8 :: Int16(items[k]) == Some(h[k])
  {
    hide Int16, HexTexts;
    var items := HexTexts(h[..at]) + seq(n, k => "0") + HexTexts(h[at + n..]);
    HexReads(h[..at]);
    HexReads(h[at + n..]);
    ZeroReads();
    forall k | 0 <= k < 8 ensures Int16(items[k]) == Some(h[k]) {
      if k < at {
        assert items[k] == HexTexts(h[..at])[k];
      } else if k < at + n {
        assert items[k] == "0";
      } else {
        assert items[k] == HexTexts(h[at + n..])[k - at - n];
      }
    }
  }

  /** Eight groups without a gap. */
  lemma {:induction false} ParsesPlain(h: seq<nat>)
    requires |h| == 8 && forall k | 0 <= k < 8 :: h[k] < GROUP
    ensures ParseV6(JoinBy(HexTexts(h), ':')) == Some(Join(h, GROUP))
  {
    hide Scan, Join, Item, JoinBy, Int16, ParseV6, HexTexts;
    HexTextsItems(h);
    ScanToEnd(HexTexts(h), [], None);
    assert [] + HexTexts(h) == HexTexts(h);
    HexReads(h);
    ParsesTo(JoinBy(HexTexts(h), ':'), HexTexts(h), None, HexTexts(h), h);
  }

  lemma {:induction false} ZeroReads()
    ensures Int16("0") == Some(0)
  {
    Int16OfHex("0");
    assert "0"[..0] == "";
  }

  /** An IPv4 address in the last two groups. */
  lemma {:induction false} ParsesMapped(low: nat)
    requires low <= MAX_IPV4
    ensures ParseV6("::ffff:" + Dotted(low)) == Some(0xFFFF_0000_0000 + low)
  {
    hide Scan, Fold, Join, Item, JoinBy, ParseV4, Dotted, Hex4;
    var d := Dotted(low);
    DottedText(low);
    DottedItem(d);
    ScanFilled([], ["ffff", d]);
    assert JoinBy([], ':') + "::" + JoinBy(["ffff", d], ':') == "::ffff:" + d by {
      JoinPair("ffff", d);
    }
    var items := ["ffff", d];
    assert [] + items == items;
    ParseV4OfDotted(low);
    var four := ["ffff", Hex4(low / GROUP), Hex4(low % GROUP)];
    assert items[..1] + [Hex4(low / GROUP), Hex4(low % GROUP)] == four;
    assert ExpandV4(items, Some(0)) == Some(four);
    var eight := ["0", "0", "0", "0", "0", "ffff", Hex4(low / GROUP), Hex4(low % GROUP)];
    assert four[..0] + seq(5, k => "0") + four[0..] == eight;
    assert ExpandFill(four, Some(0)) == Some(eight);
    MappedFold(low);
  }

  lemma {:induction false} MappedFold(low: nat)
    requires low <= MAX_IPV4
    ensures Fold(["0", "0", "0", "0", "0", "ffff", Hex4(low / GROUP), Hex4(low % GROUP)], 0)
      == Some(0xFFFF_0000_0000 + low)
  {
    hide Fold, Join, Hex4, Int16;
    Hex4Reads(low / GROUP);
    Hex4Reads(low % GROUP);
    FiveReads();
    var g := [0, 0, 0, 0, 0, 0xFFFF, low / GROUP, low % GROUP];
    FoldOfHex(["0", "0", "0", "0", "0", "ffff", Hex4(low / GROUP), Hex4(low % GROUP)], g);
    JoinEight(low);
  }

  lemma {:induction false} DottedItem(d: string)
    requires d != "" && ':' !in d
    ensures Item(d) && Item("ffff")
  {
  }

  lemma {:induction false} JoinPair(a: string, b: string)
    ensures JoinBy([a, b], ':') == a + ([':'] + b)
    ensures JoinBy([], ':') == ""
  {
    assert [a, b][1..] == [b];
  }

  lemma {:induction false} Hex4Reads(n: nat)
    requires n < GROUP
    ensures Int16(Hex4(n)) == Some(n)
  {
    Hex4Value(n);
    Int16OfHex(Hex4(n));
  }

  lemma {:induction false} FiveReads()
    ensures Int16("0") == Some(0) && Int16("ffff") == Some(0xFFFF)
  {
    ZeroReads();
    Int16OfHex("ffff");
    assert "ffff"[..3] == "fff" && "fff"[..2] == "ff" && "ff"[..1] == "f" && "f"[..0] == "";
  }

  lemma {:induction false} JoinEight(low: nat)
    ensures Join([0, 0, 0, 0, 0, 0xFFFF, low / GROUP, low % GROUP], GROUP) == 0xFFFF_0000_0000 + low
  {
    JoinStep([0, 0, 0, 0, 0, 0xFFFF, low / GROUP], low % GROUP, GROUP);
    assert [0, 0, 0, 0, 0, 0xFFFF, low / GROUP] + [low % GROUP] == [0, 0, 0, 0, 0, 0xFFFF, low / GROUP, low % GROUP];
    JoinStep([0, 0, 0, 0, 0, 0xFFFF], low / GROUP, GROUP);
    assert [0, 0, 0, 0, 0, 0xFFFF] + [low / GROUP] == [0, 0, 0, 0, 0, 0xFFFF, low / GROUP];
    JoinStep([0, 0, 0, 0, 0], 0xFFFF, GROUP);
    assert [0, 0, 0, 0, 0] + [0xFFFF] == [0, 0, 0, 0, 0, 0xFFFF];
    JoinZeros([0, 0, 0, 0, 0]);
  }

  lemma {:induction false} JoinZeros(g: seq<nat>)
    requires forall k | 0 <= k < |g| :: g[k] == 0
    ensures Join(g, GROUP) == 0
  {
    if g != [] {
      JoinZeros(g[..|g| - 1]);
    }
  }

  lemma {:induction false} EightPowers()
    ensures Power(GROUP, 8) == MAX_IPV6 + 1
  {
    assert Power(GROUP, 1) == GROUP * Power(GROUP, 0);
    assert Power(GROUP, 2) == GROUP * Power(GROUP, 1);
    assert Power(GROUP, 3) == GROUP * Power(GROUP, 2);
    assert Power(GROUP, 4) == GROUP * Power(GROUP, 3);
    assert Power(GROUP, 5) == GROUP * Power(GROUP, 4);
    assert Power(GROUP, 6) == GROUP * Power(GROUP, 5);
    assert Power(GROUP, 7) == GROUP * Power(GROUP, 6);
  }

  /** Where the gap is and what surrounds it: the leftmost among the longest runs of zero
    * groups, if that has at least two. */
  lemma {:induction false} CompressesLongestRun(x: nat)
    requires x <= MAX_IPV6 && x / 0x1_0000_0000 != 0xFFFF
    ensures var h := Hextets(x); var at := LongestRun(h, 8); var n := ZerosAt(h, at);
      && Join(h, GROUP) == x
      && (forall k | at <= k < at + n :: h[k] == 0)
      && (forall i | 0 <= i < 8 :: ZerosAt(h, i) <= n) && (forall i | 0 <= i < at :: ZerosAt(h, i) < n)
      && Compressed(x) == if n >= 2
                          then JoinBy(HexTexts(h[..at]), ':') + "::" + JoinBy(HexTexts(h[at + n..]), ':')
                          else JoinBy(HexTexts(h), ':')
  {
    hide Groups, Join, Power;
    EightPowers();
    JoinGroups(x, 8, GROUP);
  }

  /** The compressed text of every IPv6 address parses to that address. */
  lemma {:induction false} CompressedParsesBack(x: nat)
    requires x <= MAX_IPV6
    ensures ParseAddress(Compressed(x)) == Some((x, V6))
  {
    hide Groups, Join, ParseV6, Dotted, JoinBy, LongestRun, ZerosAt, Hextets;
    if x / 0x1_0000_0000 == 0xFFFF {
      ParsesMapped(x % 0x1_0000_0000);
    } else {
      GroupsSmall(x);
      CompressesLongestRun(x);
      var h := Hextets(x);
      var at := LongestRun(h, 8);
      var n := ZerosAt(h, at);
      if n >= 2 {
        ParsesFilled(h, at, n);
      } else {
        ParsesPlain(h);
      }
    }
    assert ParseV6(Compressed(x)) == Some(x);
    CompressedText(x);
    IntNeeds(Compressed(x), ':');
  }

  lemma {:induction false} GroupsSmall(x: nat)
    ensures |Hextets(x)| == 8 && forall k | 0 <= k < 8 :: Hextets(x)[k] < GROUP
  {
  }

  lemma {:induction false} CompressedText(x: nat)
    ensures ':' in Compressed(x) && '-' !in Compressed(x) && '/' !in Compressed(x)
  {
    hide Groups, Dotted, LongestRun, ZerosAt, JoinBy, HexTexts, Hextets;
    DottedText(x % 0x1_0000_0000);
    GroupsSmall(x);
    var h := Hextets(x);
    var at := LongestRun(h, 8);
    var n := ZerosAt(h, at);
    GroupsText(h);
    GroupsText(h[..at]);
    GroupsText(h[at + n..]);
    var double := "::";
    assert double[0] == ':';
  }

  lemma {:induction false} GroupsText(h: seq<nat>)
    ensures '-' !in JoinBy(HexTexts(h), ':') && '/' !in JoinBy(HexTexts(h), ':')
    ensures |h| >= 2 ==> ':' in JoinBy(HexTexts(h), ':')
  {
    HexTextsItems(h);
    JoinFree(HexTexts(h), ':', '-');
    JoinFree(HexTexts(h), ':', '/');
    if |h| >= 2 {
      JoinHas(HexTexts(h), ':');
    }
  }

  // ---------------------------------------------------------------------- networks

  /** str of a network: no prefix length after a single address. */
  function NetText(n: Prefix): string {
    AddrText(n) + if n.plen == Bits(n.version) then "" else "/" + P.Digits(n.plen)
  }

  function AddrText(n: Prefix): string {
    if n.version.V4? then Dotted(n.ip) else Compressed(n.ip)
  }

  lemma {:induction false} TopPowers()
    ensures Pow2(32) == MAX_IPV4 + 1 && Pow2(128) == MAX_IPV6 + 1
  {
    hide Pow2;
    EightBits();
    Pow2Add(8, 8);
    Pow2Add(16, 16);
    Pow2Add(32, 32);
    Pow2Add(64, 64);
  }

  lemma {:induction false} EightBits()
    ensures Pow2(8) == 256
  {
  }

  /** How the constructor takes the text of n apart. */
  predicate TakenApart(text: string, n: Prefix) {
    var y := SplitOn(text, '/');
    && SplitOn(text, '-') == [text]
    && (if n.plen == Bits(n.version) then |y| == 1
        else |y| == 2 && '.' !in y[1] && Int10(y[1]) == Some(n.plen))
    && ParseAddress(y[0]) == Some((n.ip, n.version))
  }

  lemma {:induction false} NetTextTakenApart(n: Prefix)
    requires n.Valid()
    ensures TakenApart(NetText(n), n)
  {
    hide Dotted, Compressed, ParseAddress, SplitOn, Int10;
    TopPowers();
    var a := AddrText(n);
    if n.version.V4? {
      DottedText(n.ip);
      DottedParsesBack(n.ip);
    } else {
      CompressedText(n.ip);
      CompressedParsesBack(n.ip);
    }
    if n.plen == Bits(n.version) {
      assert NetText(n) == a;
      SplitOne(a, '/');
      SplitOne(a, '-');
    } else {
      var d := P.Digits(n.plen);
      DigitsNoDot(n.plen, '.');
      DigitsNoDot(n.plen, '/');
      DigitsNoDot(n.plen, '-');
      Int10OfDigits(n.plen);
      assert NetText(n) == a + (['/'] + d);
      SplitStep(a, '/', d);
      SplitOne(d, '/');
      SplitOne(a + (['/'] + d), '-');
    }
  }

  lemma {:induction false} BytesBound(g: seq<nat>)
    requires forall k | 0 <= k < |g| :: g[k] < 256
    ensures Join(g, 256) < Power(256, |g|)
    decreases |g|
  {
    if g != [] {
      BytesBound(g[..|g| - 1]);
    }
  }

  lemma {:induction false} BytesSmall(parts: seq<string>)
    ensures Bytes(parts).Some? ==>
      |Bytes(parts).value| == |parts| && forall k | 0 <= k < |parts| :: Bytes(parts).value[k] < 256
    decreases |parts|
  {
    if parts != [] {
      BytesSmall(parts[1..]);
    }
  }

  lemma {:induction false} ParsedV4Small(text: string)
    ensures ParseV4(text).Some? ==> ParseV4(text).value <= MAX_IPV4
  {
    hide Join, Power, SplitOn, Bytes;
    var parts := SplitOn(text, '.');
    if |parts| <= 4 {
      var four := parts + seq(4 - |parts|, k => "0");
      BytesSmall(four);
      if Bytes(four).Some? {
        BytesBound(Bytes(four).value);
      }
    }
    FourPowers();
  }

  lemma {:induction false} V4InRange(text: string)
    ensures match ParseAddress(text) case Some((a, V4)) => 0 <= a <= MAX_IPV4 case _ => true
  {
    hide ParseV4, ParseV6, Int10, HexValue;
    ParsedV4Small(text);
    assert |text| >= 2 && text[..2] == "0x" ==> text[0] == text[..2][0];
  }

  /** A network as its first and last address. */
  function RangeText(n: Prefix): string
    requires n.Valid() && n.version.V4?
  {
    Dotted(n.ip) + "-" + Dotted(n.ip + n.Size() - 1)
  }

  /** An address and a netmask. */
  function MaskText(n: Prefix): string
    requires n.Valid() && n.version.V4?
  {
    Dotted(n.ip) + "/" + Dotted(MaskOf(n))
  }

  function MaskOf(n: Prefix): nat
    requires n.Valid() && n.version.V4?
  {
    (Pow2(n.plen) - 1) * Pow2(32 - n.plen)
  }

  lemma {:induction false} RangeTakenApart(n: Prefix)
    requires n.Valid() && n.version.V4?
    ensures var x := SplitOn(RangeText(n), '-');
      && |x| == 2 && ParseAddress(x[0]) == Some((n.ip, V4))
      && ParseAddress(x[1]) == Some((n.ip + n.Size() - 1, V4))
  {
    hide Dotted, ParseAddress, SplitOn, Prefix.Size;
    TopPowers();
    var a, b := Dotted(n.ip), Dotted(n.ip + n.Size() - 1);
    DottedText(n.ip);
    DottedText(n.ip + n.Size() - 1);
    DottedParsesBack(n.ip);
    DottedParsesBack(n.ip + n.Size() - 1);
    assert RangeText(n) == a + (['-'] + b);
    SplitStep(a, '-', b);
    SplitOne(b, '-');
  }

  lemma {:induction false} MaskBound(n: Prefix)
    requires n.Valid() && n.version.V4?
    ensures MaskOf(n) <= MAX_IPV4
  {
    hide Pow2;
    TopPowers();
    Pow2Add(n.plen, 32 - n.plen);
    assert MaskOf(n) == Pow2(n.plen) * Pow2(32 - n.plen) - Pow2(32 - n.plen);
  }

  lemma {:induction false} MaskTakenApart(n: Prefix)
    requires n.Valid() && n.version.V4?
    ensures var y := SplitOn(MaskText(n), '/');
      && SplitOn(MaskText(n), '-') == [MaskText(n)] && |y| == 2 && '.' in y[1]
      && ParseAddress(y[0]) == Some((n.ip, V4)) && ParseAddress(y[1]) == Some((MaskOf(n), V4))
    ensures Netmask.OnesThenZeros(MaskOf(n), n.plen, 32 - n.plen)
  {
    hide Dotted, ParseAddress, SplitOn;
    TopPowers();
    MaskBound(n);
    var a, b := Dotted(n.ip), Dotted(MaskOf(n));
    DottedText(n.ip);
    DottedText(MaskOf(n));
    DottedParsesBack(n.ip);
    DottedParsesBack(MaskOf(n));
    assert MaskText(n) == a + (['/'] + b);
    SplitStep(a, '/', b);
    SplitOne(b, '/');
    SplitOne(MaskText(n), '-');
  }

  lemma {:induction false} SizeGivesLength(n: Prefix, m: Prefix)
    requires n.Valid() && m.Valid() && n.version == m.version && n.Size() == m.Size()
    ensures n.plen == m.plen
  {
    var a, b := Bits(n.version) - n.plen, Bits(n.version) - m.plen;
    if a < b {
      Pow2Less(a, b);
    } else if b < a {
      Pow2Less(b, a);
    }
  }

  /** How the constructor takes the text of n with a netmask apart. */
  ghost predicate MaskApart(text: string, n: Prefix)
    requires n.Valid() && n.version.V4?
  {
    var y := SplitOn(text, '/');
    && SplitOn(text, '-') == [text] && |y| == 2 && '.' in y[1]
    && ParseAddress(y[0]) == Some((n.ip, V4)) && ParseAddress(y[1]) == Some((MaskOf(n), V4))
    && Netmask.OnesThenZeros(MaskOf(n), n.plen, 32 - n.plen)
  }

  /** 'first-last', after the split. */
  method ReadRange(text: string, x: seq<string>) returns (r: Result<Prefix>)
    requires x == SplitOn(text, '-') && |x| == 2
    ensures r.Ok? ==> r.value.Valid()
    ensures forall n: Prefix | n.Valid() && n.version.V4? && text == RangeText(n) :: r == Ok(n)
  {
    hide ParseAddress, SplitOn, RangeText, Prefix.Size, Pow2;
    var first, last := ParseAddress(x[0]), ParseAddress(x[1]);
    forall n: Prefix | n.Valid() && n.version.V4? && text == RangeText(n)
      ensures first == Some((n.ip, V4)) && last == Some((n.ip + n.Size() - 1, V4))
    {
      RangeTakenApart(n);
    }
    if first.None? || first.value.1 != V4 || last.None? || last.value.1 != V4 {
      return ValueError;
    }
    V4InRange(x[0]);
    V4InRange(x[1]);
    TopPowers();
    r := Netmask.FirstLast(first.value.0, last.value.0);
    forall n: Prefix | n.Valid() && n.version.V4? && text == RangeText(n) ensures r == Ok(n) {
      RangeOf(n);
      SizeGivesLength(n, r.value);
    }
  }

  lemma {:induction false} RangeOf(n: Prefix)
    requires n.Valid() && n.version.V4?
    ensures n.Size() == Pow2(32 - n.plen) && n.ip % Pow2(32 - n.plen) == 0
  {
  }

  /** IP(text), with the version guessed and no masking of the address: a network printed in
    * any of three ways reads back as itself, and nothing is accepted that is not aligned. */
  method ReadNetwork(text: string) returns (r: Result<Prefix>)
    ensures r.Ok? ==> r.value.Valid()
    ensures forall n: Prefix | n.Valid() && text == NetText(n) :: r == Ok(n)
    ensures forall n: Prefix | n.Valid() && n.version.V4? && text == RangeText(n) :: r == Ok(n)
    ensures forall n: Prefix | n.Valid() && n.version.V4? && text == MaskText(n) :: r == Ok(n)
  {
    hide ParseAddress, SplitOn, Int10, NetText, RangeText, MaskText, MaskOf, Pow2, Netmask.NetaddrWorks,
      Netmask.OnesThenZeros;
    forall n: Prefix | n.Valid() && text == NetText(n) ensures TakenApart(text, n) {
      NetTextTakenApart(n);
    }
    forall n: Prefix | n.Valid() && n.version.V4? && text == RangeText(n) ensures |SplitOn(text, '-')| == 2 {
      RangeTakenApart(n);
    }
    forall n: Prefix | n.Valid() && n.version.V4? && text == MaskText(n) ensures MaskApart(text, n) {
      MaskTakenApart(n);
    }
    var x := SplitOn(text, '-');
    if |x| == 2 {
      r := ReadRange(text, x);
      return;
    }
    if |x| != 1 {
      return ValueError;
    }
    var y := SplitOn(text, '/');
    if |y| > 2 {
      return ValueError;
    }
    var plen: Option<int> := None;
    if |y| == 2 {
      if '.' in y[1] {
        var mask := ParseAddress(y[1]);
        if mask.None? || mask.value.1 != V4 {
          return ValueError;
        }
        var len := Netmask.NetmaskToPrefixlen(mask.value.0);
        if len.ValueError? {
          return ValueError;
        }
        plen := Some(len.value);
      } else {
        plen := Int10(y[1]);
        if plen.None? {
          return ValueError;
        }
      }
    }
    var addr := ParseAddress(y[0]);
    if addr.None? {
      return ValueError;
    }
    var (ip, version) := addr.value;
    var bits := if plen.None? then Bits(version) else plen.value;
    if ip < 0 || bits < 0 {
      return ValueError;
    }
    Netmask.NetaddrWorksIffValid(ip, bits, version);
    if !Netmask.NetaddrWorks(ip, bits, version) {
      return ValueError;
    }
    return Ok(Prefix(version, ip, bits));
  }

  // ------------------------------------------------------------ the loops themselves

  /** intToIp for IPv6: eight groups of four digits. */
  function FullText(x: nat): string {
    JoinBy(FourDigits(Hextets(x)), ':')
  }

  function FourDigits(g: seq<nat>): (r: seq<string>)
    ensures |r| == |g| && forall k | 0 <= k < |g| :: r[k] == Hex4(g[k])
  {
    seq(|g|, k requires 0 <= k < |g| => Hex4(g[k]))
  }

  /** Each byte with a dot behind it. */
  function Dots(g: seq<nat>): string {
    if g == [] then "" else P.Digits(g[0]) + ("." + Dots(g[1..]))
  }

  lemma {:induction false} DotsJoin(g: seq<nat>)
    requires g != []
    ensures Dots(g) == JoinBy(DecimalTexts(g), '.') + "."
    decreases |g|
  {
    if |g| == 1 {
      assert Dots(g[1..]) == "";
    } else {
      DotsJoin(g[1..]);
      assert DecimalTexts(g)[1..] == DecimalTexts(g[1..]);
      var a, b := P.Digits(g[0]), JoinBy(DecimalTexts(g[1..]), '.');
      assert a + ("." + (b + ".")) == a + (['.'] + b) + ".";
    }
  }

  /** Groups of four digits, each with a colon before it. */
  function Colons(digits: string): string
    requires |digits| % 4 == 0
    decreases |digits|
  {
    if digits == "" then "" else ":" + digits[..4] + Colons(digits[4..])
  }

  lemma {:induction false} HexStep(x: nat, w: nat)
    ensures HexDigits(x, w + 1) == HexDigits(x / 16, w) + [P.HexDigit(x % 16)]
  {
  }

  lemma {:induction false} SixteenPowers(x: nat)
    ensures x / 16 / 16 / 16 / 16 == x / GROUP
    ensures x % 16 == x % GROUP % 16 && x / 16 % 16 == x % GROUP / 16 % 16
    ensures x / 16 / 16 % 16 == x % GROUP / 16 / 16 % 16
    ensures x / 16 / 16 / 16 % 16 == x % GROUP / 16 / 16 / 16 % 16
  {
  }

  lemma {:induction false} HexDigitsSplit(x: nat, w: nat)
    ensures HexDigits(x, w + 4) == HexDigits(x / GROUP, w) + Hex4(x % GROUP)
  {
    hide HexDigits, P.HexDigit;
    var y := x % GROUP;
    SixteenPowers(x);
    HexStep(x, w + 3);
    HexStep(x / 16, w + 2);
    HexStep(x / 16 / 16, w + 1);
    HexStep(x / 16 / 16 / 16, w);
    HexStep(y, 3);
    HexStep(y / 16, 2);
    HexStep(y / 16 / 16, 1);
    HexStep(y / 16 / 16 / 16, 0);
    FourLast(HexDigits(x / GROUP, w), P.HexDigit(x / 16 / 16 / 16 % 16), P.HexDigit(x / 16 / 16 % 16),
             P.HexDigit(x / 16 % 16), P.HexDigit(x % 16));
    assert HexDigits(y / 16 / 16 / 16 / 16, 0) == "";
    FourLast("", P.HexDigit(y / 16 / 16 / 16 % 16), P.HexDigit(y / 16 / 16 % 16),
             P.HexDigit(y / 16 % 16), P.HexDigit(y % 16));
  }

  lemma {:induction false} FourLast(s: string, a: char, b: char, c: char, d: char)
    ensures s + [a] + [b] + [c] + [d] == s + [a, b, c, d]
  {
  }

  lemma {:induction false} ColonsAppend(a: string, b: string)
    requires |a| % 4 == 0 && |b| == 4
    ensures Colons(a + b) == Colons(a) + ":" + b
    decreases |a|
  {
    if a == "" {
      assert a + b == b && b[..4] == b && Colons(b[4..]) == "";
    } else {
      ColonsAppend(a[4..], b);
      hide Colons;
      ColonsStep(a);
      ColonsStep(a + b);
      assert (a + b)[..4] == a[..4] && (a + b)[4..] == a[4..] + b;
    }
  }

  lemma {:induction false} ColonsStep(s: string)
    requires |s| % 4 == 0 && s != ""
    ensures Colons(s) == ":" + s[..4] + Colons(s[4..])
  {
  }

  lemma {:induction false} ColonsOfGroups(x: nat, n: nat)
    ensures |HexDigits(x, 4 * n)| % 4 == 0
    ensures Colons(HexDigits(x, 4 * n)) == (if n == 0 then "" else ":") + JoinBy(FourDigits(Groups(x, n, GROUP)), ':')
    decreases n
  {
    hide HexDigits, Colons, Hex4, Groups, FourDigits;
    if n == 0 {
      ColonsNone(x);
    } else {
      HexDigitsSplit(x, 4 * (n - 1));
      ColonsOfGroups(x / GROUP, n - 1);
      ColonsAppend(HexDigits(x / GROUP, 4 * (n - 1)), Hex4(x % GROUP));
      FourDigitsStep(x, n);
      JoinLast(FourDigits(Groups(x / GROUP, n - 1, GROUP)), Hex4(x % GROUP));
    }
  }

  lemma {:induction false} ColonsNone(x: nat)
    ensures HexDigits(x, 0) == "" && Colons("") == "" && FourDigits(Groups(x, 0, GROUP)) == []
  {
  }

  lemma {:induction false} FourDigitsStep(x: nat, n: nat)
    requires n > 0
    ensures FourDigits(Groups(x, n, GROUP)) == FourDigits(Groups(x / GROUP, n - 1, GROUP)) + [Hex4(x % GROUP)]
  {
    assert Groups(x, n, GROUP) == Groups(x / GROUP, n - 1, GROUP) + [x % GROUP];
  }

  lemma {:induction false} JoinLast(parts: seq<string>, last: string)
    ensures JoinBy(parts + [last], ':') == JoinBy(parts, ':') + (if parts == [] then "" else ":") + last
    decreases |parts|
  {
    if parts == [] {
      assert parts + [last] == [last];
    } else {
      JoinLast(parts[1..], last);
      var more := parts + [last];
      assert more[1..] == parts[1..] + [last] && more[0] == parts[0];
      if |parts| == 1 {
        assert parts[1..] == [];
      } else {
        var a, b := parts[0], JoinBy(parts[1..], ':');
        assert a + ([':'] + (b + ":" + last)) == a + ([':'] + b) + ":" + last;
      }
    }
  }

  lemma {:induction false} DotsSuffix(x: nat, n: nat, g: seq<nat>)
    requires n > 0
    ensures Groups(x, n, 256) + g == Groups(x / 256, n - 1, 256) + ([x % 256] + g)
    ensures Dots([x % 256] + g) == P.Digits(x % 256) + ("." + Dots(g))
  {
    assert ([x % 256] + g)[1..] == g;
    assert Groups(x, n, 256) == Groups(x / 256, n - 1, 256) + [x % 256];
  }

  /** intToIp, version 4: byte by byte from the right, then the last dot off. */
  method V4ToText(ip: nat) returns (ret: string)
    ensures ret == Dotted(ip)
  {
    hide P.Digits, JoinBy, Dots, Groups;
    ret := "";
    var rest: nat := ip;
    ghost var g: seq<nat> := [];
    NoGroups(ip);
    for l := 0 to 4
      invariant |g| == l && Groups(ip, 4, 256) == Groups(rest, 4 - l, 256) + g && ret == Dots(g)
    {
      DotsSuffix(rest, 4 - l, g);
      ret := P.Digits(rest % 256) + ("." + ret);
      g := [rest % 256] + g;
      rest := rest / 256;
    }
    NoGroups(rest);
    assert g == Octets(ip);
    DotsJoin(g);
    ret := ret[..|ret| - 1];
  }

  /** intToIp, version 6: digit by digit from the right, then the first colon off. */
  method V6ToText(ip: nat) returns (ret: string)
    ensures ret == FullText(ip)
  {
    hide Colons, HexDigits, JoinBy, Groups, FourDigits, ColonsFrom;
    ret := "";
    var l := HexDigits(ip, 32);
    ColonsStart(l);
    for x := 1 to 33
      invariant ColonsFrom(l, x - 1, ret)
    {
      ColonsGrow(l, x - 1, ret);
      ret := [l[32 - x]] + ret;
      if x % 4 == 0 {
        ret := ":" + ret;
      }
    }
    ColonsEnd(l, ret);
    ColonsOfGroups(ip, 8);
    ret := ret[1..];
  }

  /** intToIp */
  method IntToIp(ip: int, version: Version) returns (r: Result<string>)
    ensures r.Ok? <==> 0 <= ip < Pow2(Bits(version))
    ensures r.Ok? ==> r.value == if version.V4? then Dotted(ip) else FullText(ip)
  {
    hide Pow2, Dotted, FullText;
    TopPowers();
    if ip < 0 {
      return ValueError;
    }
    if version.V4? {
      if ip > MAX_IPV4 {
        return ValueError;
      }
      var text := V4ToText(ip);
      return Ok(text);
    }
    if ip > MAX_IPV6 {
      return ValueError;
    }
    var text := V6ToText(ip);
    return Ok(text);
  }

  lemma {:induction false} NoGroups(x: nat)
    ensures Groups(x, 0, 256) == [] && Dots([]) == "" && Groups(x, 4, 256) + [] == Groups(x, 4, 256)
  {
  }

  /** ret is made of the last n of 32 digits, full groups with their colons. */
  predicate ColonsFrom(digits: string, n: nat, ret: string) {
    && |digits| == 32 && n <= 32
    && ret == digits[32 - n..32 - n + n % 4] + Colons(digits[32 - n + n % 4..])
  }

  lemma {:induction false} ColonsStart(digits: string)
    requires |digits| == 32
    ensures ColonsFrom(digits, 0, "")
  {
    assert digits[32..32] == "" && digits[32..] == "";
  }

  lemma {:induction false} ColonsEnd(digits: string, ret: string)
    requires ColonsFrom(digits, 32, ret)
    ensures ret == Colons(digits)
  {
    assert digits[0..0] == "" && digits[0..] == digits;
  }

  lemma {:induction false} ColonsGrow(digits: string, n: nat, ret: string)
    requires ColonsFrom(digits, n, ret) && n < 32
    ensures var more := [digits[31 - n]] + ret;
      ColonsFrom(digits, n + 1, if (n + 1) % 4 == 0 then ":" + more else more)
  {
    hide Colons;
    var i := 31 - n;
    var at := 32 - n + n % 4;
    NextInGroup(n);
    OneMore(digits, i, at, Colons(digits[at..]));
    assert [digits[i]] + ret == digits[i..at] + Colons(digits[at..]);
    if n % 4 == 3 {
      FullGroup(digits, i);
    }
  }

  lemma {:induction false} NextInGroup(n: nat)
    ensures (n + 1) % 4 == if n % 4 == 3 then 0 else n % 4 + 1
  {
  }

  lemma {:induction false} OneMore(digits: string, i: nat, at: nat, rest: string)
    requires i < at <= |digits|
    ensures [digits[i]] + (digits[i + 1..at] + rest) == digits[i..at] + rest
  {
    assert [digits[i]] + digits[i + 1..at] == digits[i..at];
  }

  lemma {:induction false} FullGroup(digits: string, i: nat)
    requires |digits| == 32 && i % 4 == 0 && i < 32
    ensures ":" + (digits[i..i + 4] + Colons(digits[i + 4..])) == digits[i..i] + Colons(digits[i..])
  {
    var tail := digits[i..];
    assert tail[..4] == digits[i..i + 4] && tail[4..] == digits[i + 4..];
    assert ":" + (digits[i..i + 4] + Colons(digits[i + 4..])) == ":" + digits[i..i + 4] + Colons(digits[i + 4..]);
  }

  /** The first loop of _parseAddressIPv6. */
  method SplitGroups(ipstr: string) returns (r: Split)
    ensures r == Scan(ipstr, [], None)
  {
    hide Find, Scan;
    var items: seq<string> := [];
    var index := 0;
    var fill: Option<nat> := None;
    assert ipstr[0..] == ipstr;
    while index < |ipstr|
      invariant index <= |ipstr|
      invariant Scan(ipstr[index..], items, fill) == Scan(ipstr, [], None)
      decreases |ipstr| - index
    {
      var text := ipstr[index..];
      DropDrop(ipstr, index);
      ScanStep(text, items, fill);
      if StartsDouble(text) {
        if fill.Some? {
          return BadSplit;
        }
        fill := Some(|items|);
        index := index + 2;
      } else {
        var pos := Find(text, ':');
        if pos == 0 {
          return BadSplit;
        }
        if pos == |text| {
          return Split(items + [text], fill);
        }
        items := items + [text[..pos]];
        if StartsDouble(text[pos..]) {
          index := index + pos;
        } else {
          index := index + pos + 1;
        }
        if index == |ipstr| {
          return BadSplit;
        }
      }
    }
    assert ipstr[index..] == "";
    ScanNothing(items, fill);
    return Split(items, fill);
  }

  lemma {:induction false} ScanStep(text: string, items: seq<string>, fill: Option<nat>)
    requires text != ""
    ensures Scan(text, items, fill) ==
      if StartsDouble(text) then (if fill.Some? then BadSplit else Scan(text[2..], items, Some(|items|)))
      else
        var pos := Find(text, ':');
        if pos == 0 then BadSplit
        else if pos == |text| then Split(items + [text], fill)
        else
          var rest := if StartsDouble(text[pos..]) then text[pos..] else text[pos + 1..];
          if rest == "" then BadSplit else Scan(rest, items + [text[..pos]], fill)
  {
    hide Find;
  }

  lemma {:induction false} DropDrop(s: string, i: nat)
    requires i <= |s|
    ensures forall k: nat | k <= |s| - i :: s[i..][k..] == s[i + k..]
  {
  }

  /** _parseAddressIPv6 */
  method ParseAddressIPv6(ipstr: string) returns (r: Result<nat>)
    ensures match ParseV6(ipstr) case None => r.ValueError? case Some(v) => r == Ok(v)
  {
    hide Fold, Int16, ParseV4, Scan;
    ScanFill(ipstr, [], None);
    var split := SplitGroups(ipstr);
    if split.BadSplit? {
      return ValueError;
    }
    var items, fill := split.items, split.fill;
    if items != [] && '.' in items[|items| - 1] {
      if fill.Some? && !(fill.value <= |items| - 1) {
        return ValueError;
      }
      var v := ParseV4(items[|items| - 1]);
      if v.None? {
        return ValueError;
      }
      items := items[..|items| - 1] + [Hex4(v.value / GROUP), Hex4(v.value % GROUP)];
    }
    assert ExpandV4(split.items, fill) == Some(items);
    ghost var more := items;
    if fill.Some? {
      if |items| >= 8 {
        return ValueError;
      }
      items := items[..fill.value] + seq(8 - |items|, k => "0") + items[fill.value..];
    }
    if |items| != 8 {
      return ValueError;
    }
    assert ExpandFill(more, fill) == Some(items);
    assert ParseV6(ipstr) == Fold(items, 0);
    var value: nat := 0;
    var k := 0;
    assert items[0..] == items;
    while k < |items|
      invariant k <= |items|
      invariant Fold(items[k..], value) == Fold(items, 0)
    {
      FoldStep(items[k..], value);
      var item := Int16(items[k]);
      if item.None? || !(0 <= item.value <= 0xFFFF) {
        return ValueError;
      }
      assert items[k..][1..] == items[k + 1..];
      value := value * GROUP + item.value;
      k := k + 1;
    }
    assert items[k..] == [];
    FoldEnd(value);
    return Ok(value);
  }

  lemma {:induction false} FoldStep(items: seq<string>, value: nat)
    requires items != []
    ensures Fold(items, value) == match Int16(items[0])
      case None => None
      case Some(n) => if 0 <= n <= 0xFFFF then Fold(items[1..], value * GROUP + n) else None
  {
  }

  lemma {:induction false} FoldEnd(value: nat)
    ensures Fold([], value) == Some(value)
  {
  }

  /** Joining two lists. */
  lemma {:induction false} JoinConcat(a: seq<string>, b: seq<string>)
    requires a != [] && b != []
    ensures JoinBy(a + b, ':') == JoinBy(a, ':') + ":" + JoinBy(b, ':')
    decreases |a|
  {
    var all := a + b;
    assert all[0] == a[0] && all[1..] == a[1..] + b;
    if |a| == 1 {
      assert a[1..] + b == b;
    } else {
      JoinConcat(a[1..], b);
      var x, y, z := a[0], JoinBy(a[1..], ':'), JoinBy(b, ':');
      assert x + ([':'] + (y + ":" + z)) == x + ([':'] + y) + ":" + z;
    }
  }

  /** The list strCompressed joins: the gap as one empty text, two at an end. */
  function WithGap(pre: seq<string>, post: seq<string>): seq<string> {
    (if pre == [] then [""] else []) + (pre + [""] + post) + (if post == [] then [""] else [])
  }

  lemma {:induction false} JoinWithGap(pre: seq<string>, post: seq<string>)
    ensures JoinBy(WithGap(pre, post), ':') == JoinBy(pre, ':') + "::" + JoinBy(post, ':')
  {
    hide JoinBy;
    var left := if pre == [] then [""] else pre;
    var right := if post == [] then [""] else post;
    assert WithGap(pre, post) == left + ([""] + right);
    JoinConcat(left, [""] + right);
    JoinConcat([""], right);
    JoinEdge(pre);
    JoinEdge(post);
    JoinEdge([]);
    TwoColons(JoinBy(pre, ':'), JoinBy(post, ':'));
  }

  lemma {:induction false} JoinEdge(parts: seq<string>)
    ensures JoinBy(if parts == [] then [""] else parts, ':') == JoinBy(parts, ':') && JoinBy([], ':') == ""
  {
  }

  lemma {:induction false} TwoColons(a: string, b: string)
    ensures a + ":" + ("" + ":" + b) == a + "::" + b
  {
  }

  lemma {:induction false} FullTextSplits(x: nat)
    ensures SplitOn(FullText(x), ':') == FourDigits(Hextets(x))
    ensures forall k | 0 <= k < 8 :: Int16(FourDigits(Hextets(x))[k]) == Some(Hextets(x)[k])
  {
    hide Hex4, SplitOn, JoinBy, Int16;
    var h := Hextets(x);
    var parts := FourDigits(h);
    forall p | p in parts ensures ':' !in p {
      var k :| 0 <= k < |parts| && parts[k] == p;
      Hex4Free(h[k]);
    }
    SplitOfJoin(parts, ':');
    forall k | 0 <= k < 8 ensures Int16(parts[k]) == Some(h[k]) {
      Hex4Reads(h[k]);
    }
  }

  lemma {:induction false} Hex4Free(n: nat)
    ensures ':' !in Hex4(n)
  {
    assert AllHex(Hex4(n));
  }

  lemma {:induction false} NormalSplits(h: seq<nat>)
    requires h != []
    ensures SplitOn(JoinBy(HexTexts(h), ':'), ':') == HexTexts(h)
  {
    hide SplitOn, JoinBy, HexTexts;
    HexTextsItems(h);
    SplitOfJoin(HexTexts(h), ':');
  }

  lemma {:induction false} TextIsZero(h: seq<nat>, k: nat)
    requires k < |h|
    ensures HexTexts(h)[k] == "0" <==> h[k] == 0
  {
  }

  /** The texts of h with d groups from at on taken out. */
  predicate TakenOut(texts: seq<string>, h: seq<nat>, at: nat, d: nat) {
    at + d <= |h| && texts == HexTexts(h[..at]) + HexTexts(h[at + d..])
  }

  lemma {:induction false} TakeOneOut(texts: seq<string>, h: seq<nat>, at: nat, d: nat)
    requires TakenOut(texts, h, at, d) && d <= ZerosAt(h, at)
    ensures at < |texts| && texts[at] == "0" <==> d < ZerosAt(h, at)
    ensures d < ZerosAt(h, at) ==> TakenOut(texts[..at] + texts[at + 1..], h, at, d + 1)
  {
    hide *;
    var n := ZerosAt(h, at);
    if at + d < |h| {
      NextOut(texts, h, at, d);
      assert d < n <==> h[at + d] == 0;
    } else {
      NoMoreOut(texts, h, at, d);
    }
  }

  lemma {:induction false} NoMoreOut(texts: seq<string>, h: seq<nat>, at: nat, d: nat)
    requires TakenOut(texts, h, at, d) && at + d >= |h|
    ensures |texts| == at
  {
  }

  lemma {:induction false} NextOut(texts: seq<string>, h: seq<nat>, at: nat, d: nat)
    requires TakenOut(texts, h, at, d) && at + d < |h|
    ensures at < |texts| && (texts[at] == "0" <==> h[at + d] == 0)
    ensures TakenOut(texts[..at] + texts[at + 1..], h, at, d + 1)
  {
    hide HexTexts;
    var pre, post := HexTexts(h[..at]), HexTexts(h[at + d..]);
    CutAt(pre, post);
    TextIsZero(h[at + d..], 0);
    TextsTail(h, at + d);
    assert texts[..at] == pre && texts[at + 1..] == post[1..];
  }

  lemma {:induction false} CutAt(pre: seq<string>, post: seq<string>)
    requires post != []
    ensures (pre + post)[|pre|] == post[0] && (pre + post)[..|pre|] == pre && (pre + post)[|pre| + 1..] == post[1..]
  {
  }

  lemma {:induction false} TextsTail(h: seq<nat>, i: nat)
    requires i < |h|
    ensures HexTexts(h[i..])[1..] == HexTexts(h[i + 1..]) && h[i..][0] == h[i]
  {
    assert h[i..][1..] == h[i + 1..];
  }

  /** The groups of the address, read off its full text. */
  method ReadHextets(ip: nat) returns (hextets: seq<nat>)
    ensures hextets == Hextets(ip)
  {
    hide FullText, SplitOn, Int16, FourDigits, Hextets;
    GroupsSmall(ip);
    FullTextSplits(ip);
    var full := V6ToText(ip);
    var pieces := SplitOn(full, ':');
    hextets := [];
    for i := 0 to 8
      invariant |hextets| == i && hextets == Hextets(ip)[..i]
    {
      hextets := hextets + [Int16(pieces[i]).value];
    }
  }

  /** Where the most zeros follow, and how many. */
  method LongestZeros(hextets: seq<nat>) returns (at: nat, n: nat)
    requires |hextets| == 8
    ensures at == LongestRun(hextets, 8) && n == ZerosAt(hextets, at)
  {
    hide ZerosAt, LongestRun;
    var followingzeros: seq<nat> := [];
    for i := 0 to 8
      invariant |followingzeros| == i && forall k | 0 <= k < i :: followingzeros[k] == ZerosAt(hextets, k)
    {
      followingzeros := followingzeros + [ZerosAt(hextets, i)];
    }
    at := 0;
    RunStart(hextets);
    for i := 1 to 8
      invariant at < i && at == LongestRun(hextets, i)
    {
      RunStep(hextets, i);
      if followingzeros[i] > followingzeros[at] {
        at := i;
      }
    }
    n := followingzeros[at];
  }

  /** The texts of the groups with the zeros from at on deleted. */
  method CutZeros(hextets: seq<nat>, at: nat) returns (texts: seq<string>)
    requires at < |hextets|
    ensures TakenOut(texts, hextets, at, ZerosAt(hextets, at))
  {
    hide SplitOn, JoinBy, ZerosAt, HexTexts, TakenOut;
    NormalSplits(hextets);
    texts := SplitOn(JoinBy(HexTexts(hextets), ':'), ':');
    ghost var d: nat := 0;
    NothingOut(hextets, at);
    while at < |texts| && texts[at] == "0"
      invariant d <= ZerosAt(hextets, at) && TakenOut(texts, hextets, at, d)
      decreases |texts|
    {
      TakeOneOut(texts, hextets, at, d);
      texts := texts[..at] + texts[at + 1..];
      d := d + 1;
    }
    TakeOneOut(texts, hextets, at, d);
  }

  /** strCompressed of an IPv6 address, without the prefix length. */
  method StrCompressed(ip: nat) returns (text: string)
    requires ip <= MAX_IPV6
    ensures text == Compressed(ip)
  {
    hide JoinBy, Groups, Dotted, ZerosAt, HexTexts, TakenOut, LongestRun, Hextets;
    if ip / 0x1_0000_0000 == 0xFFFF {
      var ipv4 := V4ToText(ip % 0x1_0000_0000);
      return "::ffff:" + ipv4;
    }
    var hextets := ReadHextets(ip);
    GroupsSmall(ip);
    var at, n := LongestZeros(hextets);
    if n <= 1 {
      return JoinBy(HexTexts(hextets), ':');
    }
    var texts := CutZeros(hextets, at);
    AllOut(texts, hextets, at, n);
    ghost var pre, post := texts[..at], texts[at..];
    texts := texts[..at] + [""] + texts[at..];
    if at + 1 >= |texts| {
      texts := texts + [""];
    }
    if at == 0 {
      texts := [""] + texts;
    }
    assert texts == WithGap(pre, post);
    JoinWithGap(pre, post);
    return JoinBy(texts, ':');
  }

  lemma {:induction false} RunStart(h: seq<nat>)
    requires h != []
    ensures LongestRun(h, 1) == 0
  {
  }

  lemma {:induction false} RunStep(h: seq<nat>, i: nat)
    requires 0 < i < |h|
    ensures LongestRun(h, i + 1)
      == if ZerosAt(h, i) > ZerosAt(h, LongestRun(h, i)) then i else LongestRun(h, i)
  {
  }

  lemma {:induction false} NothingOut(h: seq<nat>, at: nat)
    requires at <= |h|
    ensures TakenOut(HexTexts(h), h, at, 0)
  {
    assert h == h[..at] + h[at + 0..];
  }

  lemma {:induction false} AllOut(texts: seq<string>, h: seq<nat>, at: nat, d: nat)
    requires TakenOut(texts, h, at, d)
    ensures at <= |texts| && texts[..at] == HexTexts(h[..at]) && texts[at..] == HexTexts(h[at + d..])
  {
  }
}
