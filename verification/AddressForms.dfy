/** The other forms in which parseAddress takes an address.
  *
  * What it makes of a text with a colon does not depend on the case of its letters
  * (CaseNeverMatters); so every IPv6 address, printed in compressed form or in full and
  * with any of its letters made capital, reads back as itself (CapitalsParseBack).  IPv4
  * addresses may leave out bytes at the end (ShortDottedIff), and plain numbers stand for
  * addresses of either version (DecimalAddress, HexAddress).
  */
module AddressForms {
  import opened Options
  import opened Cidr
  import opened Texts
  import opened AddressText
  import P = JsonPrint
  import M = JsonMachine

  /** The same letter, once small and once capital. */
  predicate TwoCases(x: char, y: char) {
    ('a' <= x <= 'z' && y as int == x as int - 32) || ('a' <= y <= 'z' && x as int == y as int - 32)
  }

  predicate Alike(x: char, y: char) {
    x == y || TwoCases(x, y)
  }

  predicate Recased(a: string, b: string) {
    |a| == |b| && forall k | 0 <= k < |a| :: Alike(a[k], b[k])
  }

  predicate AllRecased(a: seq<string>, b: seq<string>) {
    |a| == |b| && forall k | 0 <= k < |a| :: Recased(a[k], b[k])
  }

  // --------------------------------------------------------------------- numbers

  /** The value of a hexadecimal digit, in either case. */
  lemma {:induction false} HexOfIs(c: char, d: nat)
    requires d < 16
    ensures HexChar(c) && HexOf(c) == d <==> c == "0123456789abcdef"[d] || c == "0123456789ABCDEF"[d]
  {
  }

  lemma {:induction false} AlikeDigits(x: char, y: char)
    requires Alike(x, y)
    ensures HexChar(x) <==> HexChar(y)
    ensures HexChar(x) ==> HexOf(x) == HexOf(y)
    ensures M.Digit(x) || M.Digit(y) ==> x == y
    ensures x in {':', '.', '-', '+', '0'} || y in {':', '.', '-', '+', '0'} ==> x == y
    ensures x == 'x' || x == 'X' <==> y == 'x' || y == 'X'
  {
  }

  lemma {:induction false} HexRecased(a: string, b: string)
    requires Recased(a, b)
    ensures AllHex(a) <==> AllHex(b)
    ensures AllHex(a) ==> HexValue(a) == HexValue(b)
    decreases |a|
  {
    hide Alike, HexChar, HexOf;
    forall k | 0 <= k < |a|
      ensures (HexChar(a[k]) <==> HexChar(b[k])) && (HexChar(a[k]) ==> HexOf(a[k]) == HexOf(b[k]))
    {
      AlikeDigits(a[k], b[k]);
    }
    if a != "" {
      HexRecased(a[..|a| - 1], b[..|b| - 1]);
    }
  }

  lemma {:induction false} SignRecased(a: string, b: string)
    requires Recased(a, b)
    ensures Recased(Unsigned(a).0, Unsigned(b).0) && Unsigned(a).1 == Unsigned(b).1
  {
    hide Alike;
    if a != "" {
      AlikeDigits(a[0], b[0]);
    }
  }

  lemma {:induction false} Int16Recased(a: string, b: string)
    requires Recased(a, b)
    ensures Int16(a) == Int16(b)
  {
    hide Alike, HexValue, AllHex, Unsigned;
    SignRecased(a, b);
    var r, s := Unsigned(a).0, Unsigned(b).0;
    HexRecased(r, s);
    if |r| >= 2 {
      AlikeDigits(r[0], s[0]);
      AlikeDigits(r[1], s[1]);
      HexRecased(r[2..], s[2..]);
    }
  }

  lemma {:induction false} Int10Recased(a: string, b: string)
    requires Recased(a, b)
    ensures Int10(a) == Int10(b)
  {
    hide Alike, Unsigned;
    SignRecased(a, b);
    var r, s := Unsigned(a).0, Unsigned(b).0;
    forall k | 0 <= k < |r| ensures M.Digit(r[k]) || M.Digit(s[k]) ==> r[k] == s[k] {
      AlikeDigits(r[k], s[k]);
    }
    if forall k | 0 <= k < |r| :: M.Digit(r[k]) {
      assert r == s;
    }
  }

  // ------------------------------------------------------------------------ texts

  lemma {:induction false} FindRecased(a: string, b: string, c: char)
    requires Recased(a, b) && (c == ':' || c == '.')
    ensures Find(a, c) == Find(b, c) && (c in a <==> c in b)
    decreases |a|
  {
    hide Alike;
    if a != "" {
      AlikeDigits(a[0], b[0]);
      FindRecased(a[1..], b[1..], c);
      assert a == [a[0]] + a[1..] && b == [b[0]] + b[1..];
    }
  }

  lemma {:induction false} PartRecased(a: string, b: string, i: nat, j: nat)
    requires Recased(a, b) && i <= j <= |a|
    ensures |b| == |a| && Recased(a[i..j], b[i..j])
    ensures i == 0 ==> a[..j] == a[i..j] && b[..j] == b[i..j]
    ensures j == |a| ==> a[i..] == a[i..j] && b[i..] == b[i..j]
  {
    hide Alike;
  }

  lemma {:induction false} SplitRecased(a: string, b: string, c: char)
    requires Recased(a, b) && (c == ':' || c == '.')
    ensures AllRecased(SplitOn(a, c), SplitOn(b, c))
    decreases |a|
  {
    hide Recased, Find;
    FindRecased(a, b, c);
    var pos := Find(a, c);
    PartRecased(a, b, 0, pos);
    if pos < |a| {
      PartRecased(a, b, pos + 1, |a|);
      SplitRecased(a[pos + 1..], b[pos + 1..], c);
    }
  }

  lemma {:induction false} BytesRecased(a: seq<string>, b: seq<string>)
    requires AllRecased(a, b)
    ensures Bytes(a) == Bytes(b)
    decreases |a|
  {
    hide Recased, Int10;
    if a != [] {
      Int10Recased(a[0], b[0]);
      BytesRecased(a[1..], b[1..]);
    }
  }

  lemma {:induction false} ParseV4Recased(a: string, b: string)
    requires Recased(a, b)
    ensures ParseV4(a) == ParseV4(b)
  {
    hide SplitOn, Bytes, Join;
    SplitRecased(a, b, '.');
    var x, y := SplitOn(a, '.'), SplitOn(b, '.');
    if |x| <= 4 {
      BytesRecased(x + seq(4 - |x|, k => "0"), y + seq(4 - |y|, k => "0"));
    }
  }

  lemma {:induction false} ScanRecased(a: string, b: string, x: seq<string>, y: seq<string>, fill: Option<nat>)
    requires Recased(a, b) && AllRecased(x, y)
    ensures match (Scan(a, x, fill), Scan(b, y, fill))
      case (BadSplit, BadSplit) => true
      case (Split(items, f), Split(others, g)) => f == g && AllRecased(items, others)
      case _ => false
    decreases |a|
  {
    hide Alike, Find, StartsDouble;
    if a != "" {
      DoubleRecased(a, b);
      if StartsDouble(a) {
        DoubleIs(a);
        ScanRecased(a[2..], b[2..], x, y, Some(|x|));
      } else {
        FindRecased(a, b, ':');
        var pos := Find(a, ':');
        if 0 < pos < |a| {
          DoubleRecased(a[pos..], b[pos..]);
          var more := x + [a[..pos]];
          var others := y + [b[..pos]];
          if StartsDouble(a[pos..]) {
            ScanRecased(a[pos..], b[pos..], more, others, fill);
          } else {
            ScanRecased(a[pos + 1..], b[pos + 1..], more, others, fill);
          }
        }
      }
    }
  }

  lemma {:induction false} DoubleRecased(a: string, b: string)
    requires Recased(a, b)
    ensures StartsDouble(a) == StartsDouble(b)
  {
    hide Alike;
    if |a| >= 2 {
      AlikeDigits(a[0], b[0]);
      AlikeDigits(a[1], b[1]);
    }
  }

  lemma {:induction false} DoubleIs(a: string)
    requires StartsDouble(a)
    ensures |a| >= 2
  {
  }

  lemma {:induction false} FoldRecased(a: seq<string>, b: seq<string>, value: nat)
    requires AllRecased(a, b)
    ensures Fold(a, value) == Fold(b, value)
    decreases |a|
  {
    hide Recased, Int16;
    if a != [] {
      Int16Recased(a[0], b[0]);
      if Int16(a[0]).Some? && 0 <= Int16(a[0]).value <= 0xFFFF {
        FoldRecased(a[1..], b[1..], value * GROUP + Int16(a[0]).value);
      }
    }
  }

  lemma {:induction false} SameIsRecased(a: string)
    ensures Recased(a, a)
  {
  }

  lemma {:induction false} ExpandRecased(a: seq<string>, b: seq<string>, fill: Option<nat>)
    requires AllRecased(a, b)
    ensures match (ExpandV4(a, fill), ExpandV4(b, fill))
      case (None, None) => true
      case (Some(x), Some(y)) => AllRecased(x, y) && |x| >= |a|
      case _ => false
  {
    hide Recased, ParseV4, Hex4;
    if a != [] {
      var p, q := a[|a| - 1], b[|b| - 1];
      FindRecased(p, q, '.');
      ParseV4Recased(p, q);
      if ParseV4(p).Some? {
        SameIsRecased(Hex4(ParseV4(p).value / GROUP));
        SameIsRecased(Hex4(ParseV4(p).value % GROUP));
      }
    }
  }

  lemma {:induction false} FillRecased(a: seq<string>, b: seq<string>, fill: Option<nat>)
    requires AllRecased(a, b) && (fill.Some? ==> fill.value <= |a|)
    ensures match (ExpandFill(a, fill), ExpandFill(b, fill))
      case (None, None) => true
      case (Some(x), Some(y)) => AllRecased(x, y)
      case _ => false
  {
    hide Recased;
    SameIsRecased("0");
  }

  lemma {:induction false} ParseV6Recased(a: string, b: string)
    requires Recased(a, b)
    ensures ParseV6(a) == ParseV6(b)
  {
    hide Recased, Scan, ExpandV4, ExpandFill, Fold;
    ScanFill(a, [], None);
    ScanFill(b, [], None);
    ScanRecased(a, b, [], [], None);
    var x, y := Scan(a, [], None), Scan(b, [], None);
    if x.Split? {
      ExpandRecased(x.items, y.items, x.fill);
      var v, w := ExpandV4(x.items, x.fill), ExpandV4(y.items, y.fill);
      if v.Some? {
        FillRecased(v.value, w.value, x.fill);
        var f, g := ExpandFill(v.value, x.fill), ExpandFill(w.value, y.fill);
        if f.Some? {
          FoldRecased(f.value, g.value, 0);
        }
      }
    }
  }

  // -------------------------------------------------------------------- addresses

  /** A text with a colon means the same in capital and in small letters. */
  lemma {:induction false} CaseNeverMatters(a: string, b: string)
    requires Recased(a, b) && ':' in a
    ensures ParseAddress(a) == ParseAddress(b)
  {
    hide Recased, ParseV6, ParseV4;
    FindRecased(a, b, ':');
    IntNeeds(a, ':');
    IntNeeds(b, ':');
    ParseV6Recased(a, b);
  }

  lemma {:induction false} FullParsesBack(x: nat)
    requires x <= MAX_IPV6
    ensures ':' in FullText(x) && ParseAddress(FullText(x)) == Some((x, V6))
  {
    hide Scan, Join, Item, JoinBy, Int16, ParseV6, Hex4, FourDigits;
    var h := Hextets(x);
    var items := FourDigits(h);
    GroupsSmall(x);
    forall k | 0 <= k < 8 ensures Item(items[k]) && '.' !in items[k] && Int16(items[k]) == Some(h[k]) {
      Hex4IsItem(h[k]);
      Hex4Reads(h[k]);
    }
    ScanToEnd(items, [], None);
    assert [] + items == items;
    ParsesTo(FullText(x), items, None, items, h);
    JoinHas(items, ':');
    IntNeeds(FullText(x), ':');
    JoinGroups(x, 8, GROUP);
    EightPowers();
  }

  lemma {:induction false} Hex4IsItem(n: nat)
    ensures Item(Hex4(n)) && '.' !in Hex4(n)
  {
    var s := Hex4(n);
    assert forall k | 0 <= k < |s| :: HexChar(s[k]);
  }

  // ------------------------------------------------------------- the number of groups

  lemma {:induction false} FoldRefuses(items: seq<string>, g: seq<nat>, value: nat)
    requires |items| == |g| && forall k | 0 <= k < |g| :: Int16(items[k]) == Some(g[k])
    requires exists k | 0 <= k < |g| :: g[k] >= GROUP
    ensures Fold(items, value) == None
    decreases |g|
  {
    hide Int16;
    if g[0] < GROUP {
      var k :| 0 <= k < |g| && g[k] >= GROUP;
      assert g[1..][k - 1] == g[k];
      FoldRefuses(items[1..], g[1..], value * GROUP + g[0]);
    }
  }

  lemma {:induction false} GroupsTo(text: string, items: seq<string>, fill: Option<nat>, g: seq<nat>)
    requires Scan(text, [], None) == Split(items, fill) && (forall s | s in items :: '.' !in s)
    requires fill.Some? ==> fill.value <= |items|
    requires ExpandFill(items, fill).Some? ==>
      var groups := ExpandFill(items, fill).value;
      |groups| == |g| && forall k | 0 <= k < |g| :: Int16(groups[k]) == Some(g[k])
    ensures ParseV6(text) ==
      if ExpandFill(items, fill).Some? && forall k | 0 <= k < |g| :: g[k] < GROUP then Some(Join(g, GROUP)) else None
  {
    hide Scan, Fold, Join, ParseV4, ExpandFill, Int16;
    LastHasNoDot(items);
    assert ExpandV4(items, fill) == Some(items);
    if ExpandFill(items, fill).Some? {
      if forall k | 0 <= k < |g| :: g[k] < GROUP {
        FoldOfHex(ExpandFill(items, fill).value, g);
      } else {
        FoldRefuses(ExpandFill(items, fill).value, g, 0);
      }
    }
  }

  /** Groups without a gap are an address exactly if there are eight, each below 2^16. */
  lemma {:induction false} PlainIff(h: seq<nat>)
    requires h != []
    ensures ParseV6(JoinBy(HexTexts(h), ':')) ==
      if |h| == 8 && forall k | 0 <= k < |h| :: h[k] < GROUP then Some(Join(h, GROUP)) else None
  {
    hide Scan, Join, Item, JoinBy, Int16, ParseV6, HexTexts;
    HexTextsItems(h);
    ScanToEnd(HexTexts(h), [], None);
    assert [] + HexTexts(h) == HexTexts(h);
    HexReads(h);
    GroupsTo(JoinBy(HexTexts(h), ':'), HexTexts(h), None, h);
  }

  /** With a gap, exactly if there are at most seven, and the gap is as many zeros as are
    * missing. */
  lemma {:induction false} GapIff(a: seq<nat>, b: seq<nat>)
    ensures ParseV6(JoinBy(HexTexts(a), ':') + "::" + JoinBy(HexTexts(b), ':')) ==
      if |a| + |b| <= 7 && (forall k | 0 <= k < |a| :: a[k] < GROUP) && forall k | 0 <= k < |b| :: b[k] < GROUP
      then Some(Join(a + seq(8 - |a| - |b|, k => 0) + b, GROUP)) else None
  {
    hide Scan, Join, Item, JoinBy, Int16, ParseV6, HexTexts, ExpandFill;
    var pre, post := HexTexts(a), HexTexts(b);
    HexTextsItems(a);
    HexTextsItems(b);
    ScanFilled(pre, post);
    GapExpands(pre, post);
    var n := if |a| + |b| <= 7 then 8 - |a| - |b| else 0;
    var g := a + seq(n, k => 0) + b;
    GapGroups(a, b, n);
    GroupsTo(JoinBy(pre, ':') + "::" + JoinBy(post, ':'), pre + post, Some(|a|), g);
    GapSmall(a, b, n);
  }

  lemma {:induction false} GapExpands(pre: seq<string>, post: seq<string>)
    ensures ExpandFill(pre + post, Some(|pre|)) ==
      if |pre| + |post| <= 7 then Some(pre + seq(8 - |pre| - |post|, k => "0") + post) else None
  {
    assert (pre + post)[..|pre|] == pre && (pre + post)[|pre|..] == post;
  }

  lemma {:induction false} GapGroups(a: seq<nat>, b: seq<nat>, n: nat)
    ensures var items := HexTexts(a) + seq(n, k => "0") + HexTexts(b); var g := a + seq(n, k => 0) + b;
      |items| == |g| && forall k | 0 <= k < |g| :: Int16(items[k]) == Some(g[k])
  {
    hide Int16, HexTexts;
    HexReads(a);
    HexReads(b);
    ZeroReads();
  }

  lemma {:induction false} GapSmall(a: seq<nat>, b: seq<nat>, n: nat)
    ensures var g := a + seq(n, k => 0) + b;
      (forall k | 0 <= k < |g| :: g[k] < GROUP) <==>
        (forall k | 0 <= k < |a| :: a[k] < GROUP) && forall k | 0 <= k < |b| :: b[k] < GROUP
  {
    var g := a + seq(n, k => 0) + b;
    assert forall k | 0 <= k < |a| :: g[k] == a[k];
    assert forall k | 0 <= k < |b| :: g[|a| + n + k] == b[k];
  }

  /** A second gap is refused. */
  lemma {:induction false} TwoGaps(pre: seq<string>, mid: seq<string>, tail: string)
    requires (forall p | p in pre :: Item(p)) && forall p | p in mid :: Item(p)
    ensures ParseV6(JoinBy(pre, ':') + "::" + (JoinBy(mid, ':') + "::" + tail)) == None
  {
    hide Item, Find, JoinBy;
    var second := [':'] + ([':'] + tail);
    var rest := JoinBy(mid, ':') + second;
    var first := [':'] + ([':'] + rest);
    assert JoinBy(mid, ':') + "::" + tail == rest;
    assert JoinBy(pre, ':') + "::" + rest == JoinBy(pre, ':') + first;
    NoneJoined();
    if pre == [] {
      assert JoinBy(pre, ':') + first == first;
    } else {
      ScanToFill(pre, [], rest, None);
      assert [] + pre == pre;
    }
    ScanDouble(rest, pre);
    if mid == [] {
      assert rest == second;
    } else {
      ScanToFill(mid, pre, tail, Some(|pre|));
    }
    assert StartsDouble(second);
  }

  /** A gap behind an IPv4 address is refused. */
  lemma {:induction false} GapBehindDots(pre: seq<string>, last: string)
    requires (forall p | p in pre :: Item(p)) && Item(last) && '.' in last
    ensures ParseV6(JoinBy(pre + [last], ':') + "::") == None
  {
    hide Item, Find, JoinBy, Scan, ExpandFill, Fold;
    ScanFilled(pre + [last], []);
    NoneJoined();
    assert pre + [last] + [] == pre + [last];
    assert JoinBy(pre + [last], ':') + "::" + "" == JoinBy(pre + [last], ':') + "::";
  }

  lemma {:induction false} NoneJoined()
    ensures JoinBy([], ':') == ""
  {
  }

  /** Every address, printed short or in full, with any letters made capital. */
  lemma {:induction false} CapitalsParseBack(x: nat, text: string)
    requires x <= MAX_IPV6 && (Recased(Compressed(x), text) || Recased(FullText(x), text))
    ensures ParseAddress(text) == Some((x, V6))
  {
    hide Recased, Compressed, FullText, ParseAddress;
    if Recased(Compressed(x), text) {
      CompressedText(x);
      CompressedParsesBack(x);
      CaseNeverMatters(Compressed(x), text);
    } else {
      FullParsesBack(x);
      CaseNeverMatters(FullText(x), text);
    }
  }

  // ------------------------------------------------------------ bytes left out

  lemma {:induction false} BytesOf(g: seq<nat>, n: nat)
    ensures Bytes(DecimalTexts(g) + seq(n, k => "0")) ==
      if forall k | 0 <= k < |g| :: g[k] < 256 then Some(g + seq(n, k => 0)) else None
    decreases |g|
  {
    hide P.Digits, Int10, Bytes;
    var all := DecimalTexts(g) + seq(n, k => "0");
    if g == [] {
      assert all == seq(n, k => "0") && g + seq(n, k => 0) == seq(n, k => 0);
      BytesOfZeros(n);
    } else {
      Int10OfDigits(g[0]);
      BytesOf(g[1..], n);
      assert all[0] == P.Digits(g[0]) && all[1..] == DecimalTexts(g[1..]) + seq(n, k => "0");
      assert g + seq(n, k => 0) == [g[0]] + (g[1..] + seq(n, k => 0));
      BytesStep(all);
    }
  }

  lemma {:induction false} BytesStep(parts: seq<string>)
    requires parts != []
    ensures Bytes(parts) == match (Int10(parts[0]), Bytes(parts[1..]))
      case (Some(n), Some(rest)) => if 0 <= n <= 255 then Some([n] + rest) else None
      case _ => None
  {
    hide Int10;
  }

  lemma {:induction false} NoBytes()
    ensures Bytes([]) == Some([])
  {
  }

  lemma {:induction false} BytesOfZeros(n: nat)
    ensures Bytes(seq(n, k => "0")) == Some(seq(n, k => 0))
    decreases n
  {
    hide Int10, Bytes;
    var zeros := seq(n, k => "0");
    if n > 0 {
      ZeroIsDigits();
      Int10OfDigits(0);
      BytesOfZeros(n - 1);
      assert zeros[0] == "0" && zeros[1..] == seq(n - 1, k => "0");
      assert seq(n, k => 0) == [0] + seq(n - 1, k => 0);
      BytesStep(zeros);
    } else {
      assert zeros == [] && seq(n, k => 0) == [];
      NoBytes();
    }
  }

  lemma {:induction false} ZeroIsDigits()
    ensures P.Digits(0) == "0"
  {
  }

  /** Bytes in dotted form: at most four, each below 256, and those left out are zeros at the
    * end. */
  lemma {:induction false} ShortDottedIff(g: seq<nat>)
    requires g != []
    ensures ParseV4(JoinBy(DecimalTexts(g), '.')) ==
      if |g| <= 4 && forall k | 0 <= k < |g| :: g[k] < 256 then Some(Join(g + seq(4 - |g|, k => 0), 256)) else None
  {
    hide Join, Bytes, SplitOn, JoinBy, P.Digits;
    var parts := DecimalTexts(g);
    forall p | p in parts ensures '.' !in p {
      var k :| 0 <= k < |parts| && parts[k] == p;
      DigitsNoDot(g[k], '.');
    }
    SplitOfJoin(parts, '.');
    if |g| <= 4 {
      BytesOf(g, 4 - |g|);
    }
  }

  // -------------------------------------------------------------------- plain numbers

  lemma {:induction false} DigitsPlain(n: nat)
    ensures ':' !in P.Digits(n) && '.' !in P.Digits(n)
    ensures !(|P.Digits(n)| >= 2 && P.Digits(n)[..2] == "0x")
  {
    var s := P.Digits(n);
    DigitsNoDot(n, ':');
    DigitsNoDot(n, '.');
    assert |s| >= 2 ==> s[..2][1] == s[1] && M.Digit(s[1]);
  }

  lemma {:induction false} OneByte(n: nat)
    ensures ParseV4(P.Digits(n)) == if n < 256 then Some(n * 0x100_0000) else None
  {
    hide Join, P.Digits;
    ShortDottedIff([n]);
    assert DecimalTexts([n]) == [P.Digits(n)];
    assert JoinBy([P.Digits(n)], '.') == P.Digits(n);
    if n < 256 {
      assert [n] + seq(3, k => 0) == [n, 0, 0, 0];
      FourBytes(n);
    }
  }

  lemma {:induction false} FourBytes(n: nat)
    ensures Join([n, 0, 0, 0], 256) == n * 0x100_0000
  {
    JoinStep([n, 0, 0], 0, 256);
    JoinStep([n, 0], 0, 256);
    JoinStep([n], 0, 256);
    JoinStep([], n, 256);
    assert [n, 0, 0] + [0] == [n, 0, 0, 0] && [n, 0] + [0] == [n, 0, 0] && [n] + [0] == [n, 0] && [] + [n] == [n];
  }

  /** A decimal number below 256 is the first byte of an IPv4 address; others are addresses
    * as they stand, unless they have 32 digits, which are taken for hexadecimal. */
  lemma {:induction false} DecimalAddress(n: nat)
    requires |P.Digits(n)| != 32
    ensures ParseAddress(P.Digits(n)) ==
      if n < 256 then Some((n * 0x100_0000, V4))
      else if n <= 0xFFFF_FFFF then Some((n, V4))
      else if n <= 0xFFFF_FFFF_FFFF_FFFF_FFFF_FFFF_FFFF_FFFF then Some((n, V6))
      else None
  {
    hide P.Digits, ParseV4, ParseV6, Int10, Int16;
    DigitsPlain(n);
    Int10OfDigits(n);
    OneByte(n);
  }

  /** A hexadecimal number with 0x before it. */
  lemma {:induction false} HexAddress(n: nat)
    ensures ParseAddress("0x" + Hex(n)) ==
      if n <= 0xFFFF_FFFF then Some((n, V4))
      else if n <= 0xFFFF_FFFF_FFFF_FFFF_FFFF_FFFF_FFFF_FFFF then Some((n, V6))
      else None
  {
    hide Hex, ParseV4, ParseV6, Int10, HexValue;
    var text := "0x" + Hex(n);
    assert text[..2] == "0x" && text[2..] == Hex(n) && text[0] == '0' && text[1] == 'x';
  }

  /** 32 hexadecimal digits are an IPv6 address. */
  lemma {:induction false} PlainHexAddress(x: nat)
    requires x <= MAX_IPV6
    ensures ParseAddress(HexDigits(x, 32)) == Some((x, V6))
  {
    hide HexDigits, ParseV4, ParseV6, Int10, Int16, HexValue;
    var s := HexDigits(x, 32);
    ThirtyTwo();
    HexDigitsValue(x, 32);
    Int16OfHex(s);
    assert ':' !in s;
    assert s[..2][1] == s[1] && HexChar(s[1]);
  }

  /** A minus makes a number no address, but for one thing: with 31 hexadecimal digits behind
    * it a text is 32 characters long and not looked at again. */
  lemma {:induction false} MinusRefused(n: nat)
    requires n > 0 && |P.Digits(n)| != 31
    ensures ParseAddress("-" + P.Digits(n)) == None
  {
    hide P.Digits, Int16, ParseV6, ParseV4;
    var text := "-" + P.Digits(n);
    DigitsPlain(n);
    Int10OfDigits(n);
    MinusNumber(n);
    MinusBytes(n);
    assert text[0] == '-' && |text| == 1 + |P.Digits(n)|;
  }

  lemma {:induction false} MinusNumber(n: int)
    requires n >= 0
    ensures Int10("-" + P.Digits(n)) == Some(-n)
  {
    hide P.Digits;
    var s := "-" + P.Digits(n);
    assert s[1..] == P.Digits(n) && s[0] == '-';
    Int10OfDigits(n);
    DigitsPlain(n);
    assert M.Digit(P.Digits(n)[0]);
  }

  lemma {:induction false} MinusBytes(n: nat)
    requires n > 0
    ensures ParseV4("-" + P.Digits(n)) == None
  {
    hide P.Digits, Join, Int10, SplitOn;
    var s := "-" + P.Digits(n);
    DigitsPlain(n);
    assert JoinBy([s], '.') == s;
    SplitOfJoin([s], '.');
    MinusNumber(n);
    var parts := [s] + seq(3, k => "0");
    assert parts[0] == s;
  }

  lemma {:induction false} MinusAddress(x: int)
    requires 0 < x < Sixteens(31)
    ensures ParseAddress("-" + HexDigits(x, 31)) == Some((-x, V6))
  {
    hide HexDigits, ParseV4, ParseV6, Int10, HexValue, Sixteens;
    var s := HexDigits(x, 31);
    var text := "-" + s;
    HexDigitsValue(x, 31);
    assert text[1..] == s && text[0] == '-' && |text| == 32;
    assert HexChar(s[1]);
    assert ':' !in text;
  }

  function Sixteens(w: nat): nat {
    if w == 0 then 1 else 16 * Sixteens(w - 1)
  }

  lemma {:induction false} HexDigitsValue(n: nat, w: nat)
    requires n < Sixteens(w)
    ensures HexValue(HexDigits(n, w)) == n
    decreases w
  {
    hide HexDigits, HexValue;
    if w > 0 {
      DigitStep(n, w - 1);
      HexDigitsValue(n / 16, w - 1);
    } else {
      NoDigits();
    }
  }

  lemma {:induction false} NoDigits()
    ensures HexValue(HexDigits(0, 0)) == 0
  {
  }

  lemma {:induction false} ThirtyTwo()
    ensures Sixteens(32) == MAX_IPV6 + 1
  {
    assert Sixteens(8) == 0x1_0000_0000;
    assert Sixteens(16) == Sixteens(8) * 0x1_0000_0000;
    assert Sixteens(24) == Sixteens(16) * 0x1_0000_0000;
    assert Sixteens(32) == Sixteens(24) * 0x1_0000_0000;
  }
}
