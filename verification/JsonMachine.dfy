/** The two-pass JSON parser as a state machine over one text.
  *
  * Both passes run the same step function.  The first pass creates the nodes and only
  * measures (string lengths, child counts, key bytes); the second walks the same nodes
  * in creation order, gives each the storage the first pass measured, and writes into
  * it.  Every read through a null pointer and every write outside the table or the bytes
  * a node was given ends in the outcome Fault, so "no Fault" is memory safety of the
  * parser.
  *
  * Characters are C chars; the text holds no NUL and At reads the terminating one.
  */
module JsonMachine {
  import opened Options

  datatype Kind = KObject | KArray | KInteger | KDouble | KString | KBoolean | KNull

  /** One json_value.  length is shared by strings, arrays and objects, as in the union.
    * The storage fields stay empty in the first pass. */
  datatype Node = Node(
    kind: Kind,
    parent: Option<nat>,
    length: nat,
    keyBytes: nat,
    names: seq<Option<nat>>,
    values: seq<Option<nat>>,
    mem: seq<Option<char>>,
    memPos: nat,
    num: int,
    truth: bool)

  /** The flags that outlive one round of the loop. */
  datatype Flags = Flags(
    needComma: bool,
    seekValue: bool,
    needColon: bool,
    done: bool,
    inString: bool,
    escaped: bool,
    exponent: bool,
    gotSign: bool)

  /** The variables of the loop: cursor, flags, string length, top, the nodes created (in
    * the second pass: taken) so far, and what is left of the next_alloc chain. */
  datatype State = State(
    i: nat,
    f: Flags,
    slen: nat,
    top: Option<nat>,
    built: seq<Node>,
    pool: seq<Node>)

  /** left is what the clean-up after an error finds. */
  datatype StepResult = Go(st: State) | Finished(nodes: seq<Node>) | Rejected(left: State) | Fault

  datatype Outcome = Accepted(nodes: seq<Node>) | Refused(left: State) | Crash

  /** state.uint_max: the largest unsigned int, less the 8 that may be added before the
    * next check. */
  const LIMIT: nat := 0xFFFF_FFFF - 8

  const NUL: char := 0 as char

  function At(text: string, i: nat): char {
    if i < |text| then text[i] else NUL
  }

  predicate NoNul(text: string) {
    forall k | 0 <= k < |text| :: text[k] != NUL
  }

  predicate Blank(c: char) {
    c == ' ' || c == '\t' || c == '\r' || c == '\n'
  }

  predicate Digit(c: char) {
    '0' <= c <= '9'
  }

  predicate NumberKind(k: Kind) {
    k.KInteger? || k.KDouble?
  }

  predicate Container(k: Kind) {
    k.KArray? || k.KObject?
  }

  // ------------------------------------------------------------------ numbers

  function DigitsEnd(text: string, i: nat): (j: nat)
    requires i <= |text|
    ensures i <= j <= |text|
    ensures forall k | i <= k < j :: Digit(text[k])
    ensures !Digit(At(text, j))
    decreases |text| - i
  {
    if Digit(At(text, i)) then DigitsEnd(text, i + 1) else i
  }

  function DecimalValue(digits: string): (n: nat)
    requires forall k | 0 <= k < |digits| :: Digit(digits[k])
  {
    if digits == [] then 0
    else
      assert Digit(digits[|digits| - 1]);
      10 * DecimalValue(digits[..|digits| - 1]) + (digits[|digits| - 1] as int - '0' as int)
  }

  function Clamp(n: int): int {
    if n < -0x8000_0000_0000_0000 then -0x8000_0000_0000_0000
    else if n > 0x7FFF_FFFF_FFFF_FFFF then 0x7FFF_FFFF_FFFF_FFFF
    else n
  }

  /** strtol in base 10 on a text that starts with a digit or a minus: where it stops. */
  function StrtolEnd(text: string, i: nat): (j: nat)
    requires i < |text|
    ensures i <= j <= |text|
  {
    var start := if text[i] == '-' then i + 1 else i;
    var end := DigitsEnd(text, start);
    if end == start then i else end
  }

  /** ... and what it returns, which saturates at the ends of the long range. */
  function StrtolValue(text: string, i: nat): int
    requires i < |text|
  {
    var start := if text[i] == '-' then i + 1 else i;
    var n: int := DecimalValue(text[start..DigitsEnd(text, start)]);
    Clamp(if text[i] == '-' then -n else n)
  }

  /** strtod on the decimal texts it can meet here: where it stops. */
  function StrtodEnd(text: string, i: nat): (j: nat)
    requires i < |text|
    ensures i <= j <= |text|
  {
    var start := if text[i] == '-' then i + 1 else i;
    var whole := DigitsEnd(text, start);
    var frac := if At(text, whole) == '.' then DigitsEnd(text, whole + 1) else whole;
    if whole == start && frac <= whole + 1 then i
    else if At(text, frac) == 'e' || At(text, frac) == 'E' then
      var sign := if At(text, frac + 1) == '+' || At(text, frac + 1) == '-' then frac + 2 else frac + 1;
      var end := DigitsEnd(text, sign);
      if end == sign then frac else end
    else frac
  }

  // ------------------------------------------------------------------- memory

  function Somes(bytes: string): (r: seq<Option<char>>)
    ensures |r| == |bytes|
    ensures forall k | 0 <= k < |bytes| :: r[k] == Some(bytes[k])
  {
    seq(|bytes|, k requires 0 <= k < |bytes| => Some(bytes[k]))
  }

  function Unwritten<T>(n: nat): (r: seq<Option<T>>)
    ensures |r| == n && forall k | 0 <= k < n :: r[k] == None
  {
    seq(n, k => None)
  }

  function Write(mem: seq<Option<char>>, pos: nat, bytes: string): (r: seq<Option<char>>)
    requires pos + |bytes| <= |mem|
    ensures |r| == |mem|
  {
    mem[..pos] + Somes(bytes) + mem[pos + |bytes|..]
  }

  /** The node as the first pass creates it. */
  function Fresh(kind: Kind, parent: Option<nat>): Node {
    Node(kind, parent, 0, 0, [], [], [], 0, 0, false)
  }

  /** An object has one block for its table, two pointers a member, and the keys behind it.
    * The size of the table is computed in an int. */
  function TableBytes(length: nat): int {
    var bytes := 16 * length % 0x1_0000_0000;
    if bytes < 0x8000_0000 then bytes else bytes - 0x1_0000_0000
  }

  /** A negative size, as an unsigned long, is more than there can be. */
  predicate BlockRefused(n: Node) {
    n.kind.KObject? && TableBytes(n.length) + n.keyBytes < 0
  }

  /** How many members the table has room for. */
  function TableRoom(length: nat): nat {
    if TableBytes(length) < 0 then 0 else TableBytes(length) / 16
  }

  /** How many bytes of keys have room behind the table; a negative size puts the keys
    * before the block. */
  function KeyRoom(n: Node): nat {
    if TableBytes(n.length) < 0 then 0 else n.keyBytes
  }

  const MAX_MEMBERS: nat := 0x800_0000

  /** The size of the table fits an int. */
  predicate TableFits(n: Node) {
    n.kind.KObject? ==> n.length < MAX_MEMBERS
  }

  lemma {:induction false} FittingTable(n: Node)
    requires TableFits(n) && n.kind.KObject?
    ensures !BlockRefused(n) && TableRoom(n.length) == n.length && KeyRoom(n) == n.keyBytes
  {
  }

  lemma {:induction false} TableRoomBound(length: nat)
    ensures TableRoom(length) <= length && TableRoom(length) < MAX_MEMBERS
  {
  }

  /** The node as the second pass finds it, with the storage new_value allocates. */
  function Prepare(n: Node): Node {
    match n.kind
    case KArray => n.(length := 0, values := Unwritten(n.length))
    case KObject => n.(length := 0, names := Unwritten(TableRoom(n.length)), values := Unwritten(TableRoom(n.length)),
                       mem := Unwritten(KeyRoom(n)), memPos := 0)
    case KString => n.(length := 0, mem := Unwritten(n.length + 1))
    case _ => n.(length := 0, num := 0, truth := false)
  }

  /** The node when its block is refused: no table, and the length still the measured one. */
  function Bare(n: Node): Node {
    n.(names := [], values := [], mem := [])
  }

  /** The length of the node promises more pointers than its table has. */
  predicate Hollow(n: Node) {
    Container(n.kind) && |n.values| < n.length
  }

  /** new_value */
  function NewValue(first: bool, s: State, kind: Kind): StepResult {
    if first then
      Go(s.(built := s.built + [Fresh(kind, s.top)], top := Some(|s.built|)))
    else if s.pool == [] then Fault
    else if BlockRefused(s.pool[0]) then
      Rejected(s.(built := s.built + [Bare(s.pool[0])], pool := s.pool[1..], top := Some(|s.built|)))
    else
      Go(s.(built := s.built + [Prepare(s.pool[0])], pool := s.pool[1..], top := Some(|s.built|)))
  }

  /** Bytes are counted in the first pass and stored in the second. */
  function StringAdd(first: bool, s: State, bytes: string): StepResult {
    if first then Go(s.(slen := s.slen + |bytes|))
    else if s.top.None? || s.top.value >= |s.built| then Fault
    else
      var t := s.top.value;
      var n := s.built[t];
      var pos := (if n.kind.KObject? then n.memPos else 0) + s.slen;
      if pos + |bytes| > |n.mem| then Fault
      else Go(s.(slen := s.slen + |bytes|, built := s.built[t := n.(mem := Write(n.mem, pos, bytes))]))
  }

  /** The value on top is complete: link it into its parent and make that the top. */
  function Complete(first: bool, s: State): StepResult {
    if s.top.None? || s.top.value >= |s.built| then Fault
    else
      var t := s.top.value;
      match s.built[t].parent
      case None => Go(s.(f := s.f.(needComma := true, done := true)))
      case Some(p) =>
        if p >= |s.built| || !Container(s.built[p].kind) then Fault
        else
          var n := s.built[p];
          if !first && n.length >= |n.values| then Fault
          else
            var n' := n.(length := n.length + 1,
                         values := if first then n.values else n.values[n.length := Some(t)]);
            if n'.length > LIMIT then Rejected(s.(built := s.built[p := n'], top := Some(p)))
            else Go(s.(f := s.f.(needComma := true, seekValue := s.f.seekValue || n.kind.KArray?),
                       built := s.built[p := n'],
                       top := Some(p)))
  }

  /** The closing quote of a string value or of a key. */
  function CloseString(first: bool, s: State): StepResult {
    if s.top.None? || s.top.value >= |s.built| then Fault
    else
      var t := s.top.value;
      var n := s.built[t];
      var pos := (if n.kind.KObject? then n.memPos else 0) + s.slen;
      if !first && pos >= |n.mem| then Fault
      else
        var mem := if first then n.mem else Write(n.mem, pos, [NUL]);
        match n.kind
        case KString =>
          Complete(first, s.(slen := 0, built := s.built[t := n.(length := s.slen, mem := mem)]))
        case KObject =>
          var f := s.f.(seekValue := true, needColon := true);
          if first then
            Go(s.(f := f, slen := 0, built := s.built[t := n.(keyBytes := n.keyBytes + s.slen + 1)]))
          else if n.length >= |n.names| then Fault
          else
            Go(s.(f := f, slen := 0,
                  built := s.built[t := n.(mem := mem,
                                           names := n.names[n.length := Some(n.memPos)],
                                           memPos := n.memPos + s.slen + 1)]))
        case _ => Fault
  }

  /** true, false and null: create, set, complete. */
  function Scalar(first: bool, s: State, kind: Kind, truth: bool): StepResult {
    var r := NewValue(first, s, kind);
    if !r.Go? then r
    else Complete(first, r.st.(built := MarkTruth(r.st.built, |s.built|, truth)))
  }

  function MarkTruth(built: seq<Node>, t: nat, truth: bool): seq<Node> {
    if truth && t < |built| then built[t := built[t].(truth := true)] else built
  }

  /** A number starts at the cursor.  The first pass goes on character by character, the
    * second lets strtol or strtod find the end. */
  function NumberStart(first: bool, text: string, s: State): StepResult
    requires s.i < |text|
  {
    var r := NewValue(first, s, KInteger);
    if !r.Go? then r
    else if first then Go(r.st.(i := s.i + 1))
    else Complete(first, Convert(text, r.st, |s.built|))
  }

  /** strtod or strtol, by the type the first pass found. */
  function Convert(text: string, s: State, t: nat): (s': State)
    requires s.i < |text|
  {
    if t >= |s.built| then s
    else if s.built[t].kind.KDouble? then s.(i := StrtodEnd(text, s.i))
    else s.(i := StrtolEnd(text, s.i),
            built := s.built[t := s.built[t].(num := StrtolValue(text, s.i))])
  }

  // ------------------------------------------------------------------ the step

  function HexValue(c: char): (v: nat)
    ensures v == 0xFF || v < 16
  {
    if 'A' <= c <= 'F' then c as int - 'A' as int + 10
    else if 'a' <= c <= 'f' then c as int - 'a' as int + 10
    else if '0' <= c <= '9' then c as int - '0' as int
    else 0xFF
  }

  /** The bytes written for \uXXXX; b1 and b2 are the high and low byte of the unit. */
  function EscapeBytes(b1: nat, b2: nat): (r: string)
    requires b1 < 256 && b2 < 256
    ensures 1 <= |r| <= 3
  {
    if b1 == 0 && b2 <= 0x7F then [b2 as char]
    else if b1 * 256 + b2 <= 0x7FF then
      [(0xC0 + b2 / 64 + (b1 % 4) * 8) as char, (0x80 + b2 % 64) as char]
    else
      [(0xE0 + b1 / 16) as char, (0x80 + (b1 % 16) * 4 + b2 / 64) as char, (0x80 + b2 % 64) as char]
  }

  /** In the two-byte range the high bits land in the wrong place: the bytes are those of
    * UTF-8 (section 3 of RFC 3629) exactly when the high byte of the unit is 0. */
  lemma {:induction false} TwoByteEscapeIff(b1: nat, b2: nat)
    requires b1 < 256 && b2 < 256 && 0x80 <= b1 * 256 + b2 <= 0x7FF
    ensures var unit := b1 * 256 + b2;
      EscapeBytes(b1, b2) == [(0xC0 + unit / 64) as char, (0x80 + unit % 64) as char] <==> b1 == 0
  {
    var unit := b1 * 256 + b2;
    assert unit / 64 == b1 * 4 + b2 / 64 && unit % 64 == b2 % 64;
    assert (0xC0 + unit / 64) as char == (0xC0 + b2 / 64 + (b1 % 4) * 8) as char <==>
      unit / 64 == b2 / 64 + (b1 % 4) * 8;
    assert b1 < 8;
  }

  /** Outside that range they are the bytes of UTF-8, surrogates taken one by one. */
  lemma {:induction false} OtherEscapes(b1: nat, b2: nat)
    requires b1 < 256 && b2 < 256
    ensures var unit := b1 * 256 + b2;
      && (unit < 0x80 ==> EscapeBytes(b1, b2) == [unit as char])
      && (unit >= 0x800 ==>
            EscapeBytes(b1, b2)
            == [(0xE0 + unit / 4096) as char, (0x80 + unit / 64 % 64) as char, (0x80 + unit % 64) as char])
  {
    var unit := b1 * 256 + b2;
    assert unit / 4096 == b1 / 16 && unit % 64 == b2 % 64 && unit / 64 % 64 == (b1 % 16) * 4 + b2 / 64;
  }

  datatype Unit = BadEscape | Unit(bytes: string, width: nat)

  /** What stands after a backslash: the bytes it means and how many characters it takes. */
  function Decode(text: string, i: nat): (u: Unit)
    ensures u.Unit? ==> 1 <= |u.bytes| <= 3 && u.width >= 1
    ensures u.Unit? && i < |text| ==> i + u.width <= |text|
  {
    var b := At(text, i);
    if b == 'b' then Unit([8 as char], 1)
    else if b == 'f' then Unit([12 as char], 1)
    else if b == 'n' then Unit(['\n'], 1)
    else if b == 'r' then Unit(['\r'], 1)
    else if b == 't' then Unit(['\t'], 1)
    else if b == 'u' then
      var h1, h2 := HexValue(At(text, i + 1)), HexValue(At(text, i + 2));
      var h3, h4 := HexValue(At(text, i + 3)), HexValue(At(text, i + 4));
      if h1 == 0xFF || h2 == 0xFF || h3 == 0xFF || h4 == 0xFF then BadEscape
      else Unit(EscapeBytes(h1 * 16 + h2, h3 * 16 + h4), 5)
    else Unit([b], 1)
  }

  predicate Follows(text: string, i: nat, word: string) {
    i + |word| <= |text| && text[i..i + |word|] == word
  }

  datatype Word = NoWord | Word(rest: string, kind: Kind, truth: bool)

  /** The literal that begins with b. */
  function WordOf(b: char): Word {
    if b == 't' then Word("rue", KBoolean, true)
    else if b == 'f' then Word("alse", KBoolean, false)
    else if b == 'n' then Word("ull", KNull, false)
    else NoWord
  }

  /** What one round of the loop does, as decided by the character under the cursor, the
    * flags, the string length and the type of the top value. */
  datatype Act =
    | Stay(f: Flags, i: nat)
    | OpenKey(f: Flags, i: nat)
    | Create(kind: Kind, f: Flags, i: nat)
    | Literal(kind: Kind, truth: bool, f: Flags, i: nat)
    | Number(f: Flags)
    | Append(bytes: string, f: Flags, i: nat)
    | Close(f: Flags, i: nat)
    | Finish(f: Flags, i: nat)
    | ToDouble(f: Flags, i: nat)
    | End
    | Stop
    | NullTop

  function DecideString(text: string, i: nat, f: Flags, slen: nat): Act {
    var b := At(text, i);
    if b == NUL then Stop
    else if slen > LIMIT then Stop
    else if f.escaped then
      match Decode(text, i)
      case BadEscape => Stop
      case Unit(bytes, width) => Append(bytes, f.(escaped := false), i + width)
    else if b == '\\' then Stay(f.(escaped := true), i + 1)
    else if b == '"' then Close(f.(inString := false), i + 1)
    else Append([b], f, i + 1)
  }

  function DecideValue(text: string, i: nat, f: Flags): Act
    requires i < |text|
  {
    var b := text[i];
    if b == '{' then Create(KObject, f, i + 1)
    else if b == '[' then Create(KArray, f.(seekValue := true), i + 1)
    else if b == '"' then Create(KString, f.(inString := true), i + 1)
    else
      match WordOf(b)
      case Word(rest, kind, truth) =>
        if Follows(text, i + 1, rest) then Literal(kind, truth, f, i + 1 + |rest|) else Stop
      case NoWord =>
        if Digit(b) || b == '-' then Number(f.(exponent := false, gotSign := false)) else Stop
  }

  function DecideSeek(text: string, i: nat, f: Flags, top: Option<Kind>): Act {
    var b := At(text, i);
    if Blank(b) then Stay(f, i + 1)
    else if b == ']' then
      match top
      case None => NullTop
      case Some(k) => if k.KArray? then Finish(f.(needComma := false, seekValue := false), i + 1) else Stop
    else if f.needComma then
      if b == ',' then Stay(f.(needComma := false), i + 1) else Stop
    else if f.needColon then
      if b == ':' then Stay(f.(needColon := false), i + 1) else Stop
    else if i >= |text| then Stop
    else DecideValue(text, i, f.(seekValue := false))
  }

  function DecideObject(b: char, i: nat, f: Flags): Act {
    if Blank(b) then Stay(f, i + 1)
    else if b == '"' then (if f.needComma then Stop else OpenKey(f.(inString := true), i + 1))
    else if b == '}' then Finish(f.(needComma := false), i + 1)
    else if b == ',' && f.needComma then Stay(f.(needComma := false), i + 1)
    else Stop
  }

  /** A number being scanned; the character that ends it is looked at again. */
  function DecideNumber(b: char, i: nat, f: Flags, k: Kind): Act {
    if Digit(b) then Stay(f, i + 1)
    else if (b == 'e' || b == 'E') && !f.exponent then ToDouble(f.(exponent := true), i + 1)
    else if (b == '+' || b == '-') && f.exponent && !f.gotSign then Stay(f.(gotSign := true), i + 1)
    else if b == '.' && k.KInteger? then ToDouble(f, i + 1)
    else Finish(f.(exponent := false, gotSign := false), i)
  }

  function Decide(text: string, i: nat, f: Flags, slen: nat, top: Option<Kind>): Act {
    var b := At(text, i);
    if f.done then
      if b == NUL then End else if Blank(b) then Stay(f, i + 1) else Stop
    else if f.inString then DecideString(text, i, f, slen)
    else if f.seekValue then DecideSeek(text, i, f, top)
    else
      match top
      case None => NullTop
      case Some(k) =>
        if k.KObject? then DecideObject(b, i, f)
        else if NumberKind(k) then DecideNumber(b, i, f, k)
        else NullTop
  }

  function TopKind(s: State): Option<Kind> {
    if s.top.None? || s.top.value >= |s.built| then None else Some(s.built[s.top.value].kind)
  }

  function Apply(first: bool, text: string, s: State, a: Act): StepResult {
    match a
    case Stay(f, i) => Go(s.(f := f, i := i))
    case OpenKey(f, i) => Go(s.(f := f, i := i, slen := 0))
    case Create(kind, f, i) => NewValue(first, s.(f := f, i := i, slen := 0), kind)
    case Literal(kind, truth, f, i) => Scalar(first, s.(f := f, i := i), kind, truth)
    case Number(f) => if s.i < |text| then NumberStart(first, text, s.(f := f)) else Fault
    case Append(bytes, f, i) => StringAdd(first, s.(f := f, i := i), bytes)
    case Close(f, i) => CloseString(first, s.(f := f, i := i))
    case Finish(f, i) => Complete(first, s.(f := f, i := i))
    case ToDouble(f, i) =>
      if s.top.None? || s.top.value >= |s.built| then Fault
      else
        var t := s.top.value;
        Go(s.(f := f, i := i, built := s.built[t := s.built[t].(kind := KDouble)]))
    case End => Finished(s.built)
    case Stop => Rejected(s)
    case NullTop => Fault
  }

  /** One round of the loop. */
  function Step(first: bool, text: string, s: State): StepResult {
    Apply(first, text, s, Decide(text, s.i, s.f, s.slen, TopKind(s)))
  }

  // -------------------------------------------------------------- termination

  /** The cursor can stand still in two places only: where a number starts in the second
    * pass and where one ends in the first. */
  function Rank(s: State): nat {
    if s.f.done || s.f.inString then 0
    else if s.f.seekValue then (if s.f.needComma then 0 else 1)
    else if TopKind(s).Some? && NumberKind(TopKind(s).value) then 1
    else 0
  }

  /** The cursor moves forward and stays in the text. */
  predicate Advances(a: Act, text: string, i: nat) {
    match a
    case Stay(_, j) => i < j <= |text|
    case OpenKey(_, j) => i < j <= |text|
    case Create(_, _, j) => i < j <= |text|
    case Literal(_, _, _, j) => i < j <= |text|
    case Append(_, _, j) => i < j <= |text|
    case Close(_, j) => i < j <= |text|
    case Finish(_, j) => i < j <= |text|
    case ToDouble(_, j) => i < j <= |text|
    case Number(_) => i < |text|
    case _ => true
  }

  /** The only acts after which the cursor can stand still. */
  predicate StandsStill(a: Act, i: nat, f: Flags, top: Option<Kind>) {
    match a
    case Finish(g, j) => !f.done && !f.inString && !f.seekValue && top.Some? && NumberKind(top.value)
    case Number(g) => !f.done && !f.inString && f.seekValue && !f.needComma
    case _ => false
  }

  predicate ActFlags(a: Act) {
    match a
    case Finish(g, _) => !g.inString
    case Number(g) => !g.inString
    case _ => true
  }

  /** Where the cursor goes, act by act. */
  lemma {:induction false} DecideProgress(text: string, i: nat, f: Flags, slen: nat, top: Option<Kind>)
    requires i <= |text| && NoNul(text)
    ensures var a := Decide(text, i, f, slen, top);
      && ActFlags(a)
      && ((Advances(a, text, i) && !a.Number?)
          || (StandsStill(a, i, f, top) && (a.Finish? ==> a.i == i) && (a.Number? ==> i < |text|)))
  {
    hide DecideString, DecideSeek;
    assert At(text, i) == NUL <==> i == |text|;
    if !f.done && f.inString {
      StringProgress(text, i, f, slen);
    } else if !f.done && f.seekValue {
      SeekProgress(text, i, f, top);
    }
  }

  lemma {:induction false} StringProgress(text: string, i: nat, f: Flags, slen: nat)
    requires i <= |text| && NoNul(text)
    ensures var a := DecideString(text, i, f, slen);
      Advances(a, text, i) && ActFlags(a) && !a.Number? && !a.Finish?
  {
    hide Decode;
    assert At(text, i) == NUL <==> i == |text|;
  }

  lemma {:induction false} SeekProgress(text: string, i: nat, f: Flags, top: Option<Kind>)
    requires i <= |text| && NoNul(text) && !f.inString
    ensures var a := DecideSeek(text, i, f, top);
      && Advances(a, text, i) && ActFlags(a)
      && (a.Number? ==> !f.needComma)
  {
    hide DecideValue;
    assert At(text, i) == NUL <==> i == |text|;
    if i < |text| {
      ValueProgress(text, i, f.(seekValue := false));
    }
  }

  lemma {:induction false} ValueProgress(text: string, i: nat, f: Flags)
    requires i < |text|
    ensures match DecideValue(text, i, f)
      case Create(_, _, j) => i < j <= |text|
      case Literal(_, _, _, j) => i < j <= |text|
      case Number(g) => g == f.(exponent := false, gotSign := false)
      case Stop => true
      case _ => false
  {
  }

  lemma {:induction false} CompleteProgress(first: bool, s: State)
    ensures Complete(first, s).Go? && !s.f.inString ==>
      Complete(first, s).st.i == s.i && Rank(Complete(first, s).st) == 0
  {
  }

  lemma {:induction false} MemoryKeepsCursor(first: bool, text: string, s: State, kind: Kind, bytes: string,
          truth: bool)
    ensures NewValue(first, s, kind).Go? ==> NewValue(first, s, kind).st.i == s.i
    ensures StringAdd(first, s, bytes).Go? ==> StringAdd(first, s, bytes).st.i == s.i
    ensures CloseString(first, s).Go? ==> CloseString(first, s).st.i == s.i
    ensures Scalar(first, s, kind, truth).Go? ==> Scalar(first, s, kind, truth).st.i == s.i
  {
    hide Write, Prepare, MarkTruth;
  }

  lemma {:induction false} NumberProgress(first: bool, text: string, s: State)
    requires s.i < |text| && !s.f.inString
    ensures NumberStart(first, text, s).Go? ==>
      var s' := NumberStart(first, text, s).st;
      s.i <= s'.i <= |text| && (s'.i == s.i ==> Rank(s') == 0)
  {
    hide Prepare, StrtolValue, StrtolEnd, StrtodEnd, Complete, Rank;
    var r := NewValue(first, s, KInteger);
    if r.Go? {
      CompleteProgress(first, Convert(text, r.st, |s.built|));
    }
  }

  lemma {:induction false} StepProgress(first: bool, text: string, s: State)
    requires s.i <= |text| && NoNul(text)
    ensures Step(first, text, s).Go? ==>
      var s' := Step(first, text, s).st;
      s'.i <= |text| && (s'.i > s.i || (s'.i == s.i && Rank(s') < Rank(s)))
  {
    hide Decide, NewValue, StringAdd, CloseString, Complete, Scalar, NumberStart;
    DecideProgress(text, s.i, s.f, s.slen, TopKind(s));
    match Decide(text, s.i, s.f, s.slen, TopKind(s))
    case Create(kind, f, i) => MemoryKeepsCursor(first, text, s.(f := f, i := i, slen := 0), kind, "", false);
    case Literal(kind, truth, f, i) => MemoryKeepsCursor(first, text, s.(f := f, i := i), kind, "", truth);
    case Append(bytes, f, i) => MemoryKeepsCursor(first, text, s.(f := f, i := i), KNull, bytes, false);
    case Close(f, i) => MemoryKeepsCursor(first, text, s.(f := f, i := i), KNull, "", false);
    case Finish(f, i) => CompleteProgress(first, s.(f := f, i := i));
    case Number(f) => NumberProgress(first, text, s.(f := f));
    case _ =>
  }

  // ------------------------------------------------------------------ the runs

  /** e_failed.  After the second pass it calls json_value_free on the root, which goes by
    * its length; what else the clean-up does is the subject of JsonFree. */
  function Failed(first: bool, left: State): Outcome {
    if !first && left.built != [] && Hollow(left.built[0]) then Crash else Refused(left)
  }

  /** The loop, from a given state to its end. */
  function Run(first: bool, text: string, s: State): Outcome
    requires s.i <= |text| && NoNul(text)
    decreases |text| - s.i, Rank(s)
  {
    StepProgress(first, text, s);
    match Step(first, text, s)
    case Go(s') => Run(first, text, s')
    case Finished(nodes) => Accepted(nodes)
    case Rejected(left) => Failed(first, left)
    case Fault => Crash
  }

  /** What a run yields from the result of one step on. */
  function RunOn(first: bool, text: string, r: StepResult): Outcome
    requires NoNul(text) && (r.Go? ==> r.st.i <= |text|)
  {
    match r
    case Go(s') => Run(first, text, s')
    case Finished(nodes) => Accepted(nodes)
    case Rejected(left) => Failed(first, left)
    case Fault => Crash
  }

  lemma {:induction false} CompleteGoesOn(first: bool, s: State)
    ensures !Complete(first, s).Finished?
  {
  }

  lemma {:induction false} CompleteCursor(first: bool, s: State)
    ensures Complete(first, s).Go? ==> Complete(first, s).st.i == s.i
  {
  }

  function Start(pool: seq<Node>): State {
    State(0, Flags(false, true, false, false, false, false, false, false), 0, None, [], pool)
  }

  function Pass1(text: string): Outcome
    requires NoNul(text)
  {
    Run(true, text, Start([]))
  }

  /** json_parse_ex with default settings: measure, then build. */
  function Parse(text: string): Outcome
    requires NoNul(text)
  {
    match Pass1(text)
    case Accepted(measured) => Run(false, text, Start(measured))
    case Refused(left) => Refused(left)
    case Crash => Crash
  }

  /** The loop as the program runs it. */
  method RunLoop(first: bool, text: string, pool: seq<Node>) returns (r: Outcome)
    requires NoNul(text)
    ensures r == Run(first, text, Start(pool))
  {
    hide Step;
    var s := Start(pool);
    while true
      invariant s.i <= |text|
      invariant Run(first, text, s) == Run(first, text, Start(pool))
      decreases |text| - s.i, Rank(s)
    {
      StepProgress(first, text, s);
      match Step(first, text, s)
      case Go(s') => s := s';
      case Finished(nodes) => return Accepted(nodes);
      case Rejected(left) => return Failed(first, left);
      case Fault => return Crash;
    }
  }

  method JsonParse(text: string) returns (r: Outcome)
    requires NoNul(text)
    ensures r == Parse(text)
  {
    r := RunLoop(true, text, []);
    if r.Accepted? {
      r := RunLoop(false, text, r.nodes);
    }
  }
}
