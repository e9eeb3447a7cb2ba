/** The texts the parser accepts.
  *
  * Grammatical reads a text by recursive descent: blanks, values, strings with their
  * escapes, numbers; a comma may stand before a closing bracket or brace.  The main result,
  * AcceptsIff, says that the two passes of the machine accept exactly these texts, as long
  * as the tables measured for them fit; in texts under 2^27 bytes they always do.
  *
  * The first pass follows the grammar part by part (ReadsValue); the second then accepts
  * if strtol and strtod take every number to the end of what was scanned.
  */
module JsonGrammar {
  import opened Options
  import opened JsonMachine
  import opened JsonSpacing
  import opened JsonRoundTrip
  import T = JsonTwoPass

  // ------------------------------------------------------------------- the grammar

  predicate Numeral(c: char) {
    '0' <= c <= '9'
  }

  function PastNumerals(text: string, i: nat): (j: nat)
    requires i <= |text|
    ensures i <= j <= |text|
    decreases |text| - i
  {
    if i < |text| && Numeral(text[i]) then PastNumerals(text, i + 1) else i
  }

  /** Where a number at i ends: a minus or none, digits with a point before, between or
    * behind them or none, an exponent or none. */
  function AfterForm(text: string, i: nat): (e: Option<nat>)
    requires i < |text|
    ensures e.Some? ==> i < e.value <= |text|
  {
    var start := if text[i] == '-' then i + 1 else i;
    var whole := PastNumerals(text, start);
    var part := if HasAt(text, whole, ".") then PastNumerals(text, whole + 1) else whole;
    if whole == start && part <= whole + 1 then None
    else if HasAt(text, part, "e") || HasAt(text, part, "E") then
      var digits := if HasAt(text, part + 1, "+") || HasAt(text, part + 1, "-") then part + 2 else part + 1;
      if PastNumerals(text, digits) == digits then None else Some(PastNumerals(text, digits))
    else Some(part)
  }

  predicate InNumber(c: char) {
    Numeral(c) || c == '+' || c == '-' || c == '.' || c == 'e' || c == 'E'
  }

  /** A number begins with a minus or a digit, and nothing of the kind follows it. */
  function AfterNumber(text: string, i: nat): (e: Option<nat>)
    requires i < |text|
    ensures e.Some? ==> i < e.value <= |text|
  {
    if text[i] != '-' && !Numeral(text[i]) then None
    else
      match AfterForm(text, i)
      case None => None
      case Some(e) => if e < |text| && InNumber(text[e]) then None else Some(e)
  }

  function Hex(c: char): (v: Option<nat>)
    ensures v.Some? ==> v.value < 16
  {
    if Numeral(c) then Some(c as int - 48)
    else if 'a' <= c <= 'f' then Some(c as int - 87)
    else if 'A' <= c <= 'F' then Some(c as int - 55)
    else None
  }

  /** The code unit behind \u. */
  function CodeUnit(text: string, i: nat): (u: Option<nat>)
  {
    if i + 4 > |text| then None
    else
      var a, b, c, d := Hex(text[i]), Hex(text[i + 1]), Hex(text[i + 2]), Hex(text[i + 3]);
      if a.None? || b.None? || c.None? || d.None? then None
      else Some(4096 * a.value + 256 * b.value + 16 * c.value + d.value)
  }

  datatype Escape = NoEscape | Escape(width: nat, bytes: nat)

  /** What stands behind a backslash: how many characters, for how many bytes. */
  function EscapeAt(text: string, i: nat): (x: Escape)
    requires i <= |text|
    ensures x.Escape? ==> 0 < x.width && i + x.width <= |text|
  {
    if i == |text| then NoEscape
    else if text[i] == 'u' then
      match CodeUnit(text, i + 1)
      case None => NoEscape
      case Some(unit) => Escape(5, if unit < 0x80 then 1 else if unit < 0x800 then 2 else 3)
    else Escape(1, 1)
  }

  /** Behind the closing quote of a string; n bytes of it came before i. */
  function AfterString(text: string, i: nat, n: nat): (e: Option<nat>)
    requires i <= |text|
    ensures e.Some? ==> i < e.value <= |text|
    decreases |text| - i
  {
    if i == |text| || n > LIMIT then None
    else if text[i] == '"' then Some(i + 1)
    else if text[i] == '\\' then
      match EscapeAt(text, i + 1)
      case NoEscape => None
      case Escape(width, bytes) => AfterString(text, i + 1 + width, n + bytes)
    else AfterString(text, i + 1, n + 1)
  }

  function AfterValue(text: string, i: nat): (e: Option<nat>)
    requires i <= |text|
    ensures e.Some? ==> i < e.value <= |text|
    decreases |text| - i, 1
  {
    if i == |text| then None
    else if text[i] == '{' then AfterMembers(text, i + 1, false, 0)
    else if text[i] == '[' then AfterElements(text, i + 1, false, 0)
    else if text[i] == '"' then AfterString(text, i + 1, 0)
    else if HasAt(text, i, "true") || HasAt(text, i, "null") then Some(i + 4)
    else if HasAt(text, i, "false") then Some(i + 5)
    else AfterNumber(text, i)
  }

  /** Behind the bracket of an array that has n elements before i, the last of them with no
    * comma yet if one is wanted. */
  function AfterElements(text: string, i: nat, comma: bool, n: nat): (e: Option<nat>)
    requires i <= |text|
    ensures e.Some? ==> i < e.value <= |text|
    decreases |text| - i, 2
  {
    var b := Past(text, i);
    if HasAt(text, b, "]") then Some(b + 1)
    else if comma then (if HasAt(text, b, ",") then AfterElements(text, b + 1, false, n) else None)
    else
      match AfterValue(text, b)
      case None => None
      case Some(e) => if n + 1 > LIMIT then None else AfterElements(text, e, true, n + 1)
  }

  /** ... of an object that has n members. */
  function AfterMembers(text: string, i: nat, comma: bool, n: nat): (e: Option<nat>)
    requires i <= |text|
    ensures e.Some? ==> i < e.value <= |text|
    decreases |text| - i, 2
  {
    var b := Past(text, i);
    if HasAt(text, b, "}") then Some(b + 1)
    else if comma then (if HasAt(text, b, ",") then AfterMembers(text, b + 1, false, n) else None)
    else if !HasAt(text, b, "\"") then None
    else
      match AfterKey(text, b + 1)
      case None => None
      case Some(v) =>
        match AfterValue(text, v)
        case None => None
        case Some(e) => if n + 1 > LIMIT then None else AfterMembers(text, e, true, n + 1)
  }

  /** The start of the value whose key has its characters from i on. */
  function AfterKey(text: string, i: nat): (e: Option<nat>)
    requires i <= |text|
    ensures e.Some? ==> i < e.value <= |text|
  {
    match AfterString(text, i, 0)
    case None => None
    case Some(k) =>
      var c := Past(text, k);
      if HasAt(text, c, ":") then Some(Past(text, c + 1)) else None
  }

  /** One value and blanks. */
  predicate Grammatical(text: string) {
    var e := AfterValue(text, Past(text, 0));
    e.Some? && Past(text, e.value) == |text|
  }

  // -------------------------------------------- a first pass whose numbers are whole

  /** strtol or strtod will take the number at i to the end of what the first pass scans of
    * it, from s on. */
  predicate Whole(text: string, i: nat, s: State) {
    && T.Scanning(text, s) && i < |text|
    && var end := T.ScanEnd(text, s);
       end.i == T.Converted(text, i, end)
  }

  /** The first pass runs to its end from s on, over whole numbers only. */
  predicate Passes(text: string, s: State)
    requires NoNul(text) && s.i <= |text|
    decreases |text| - s.i, Rank(s)
  {
    StepProgress(true, text, s);
    match Step(true, text, s)
    case Go(s') => (Decide(text, s.i, s.f, s.slen, TopKind(s)).Number? ==> Whole(text, s.i, s')) && Passes(text, s')
    case Finished(_) => true
    case _ => false
  }

  predicate PassesOn(text: string, r: StepResult)
    requires NoNul(text)
  {
    match r
    case Go(s') => s'.i <= |text| && Passes(text, s')
    case Finished(_) => true
    case _ => false
  }

  lemma {:induction false} PassStep(text: string, s: State)
    requires NoNul(text) && s.i <= |text|
    ensures !Decide(text, s.i, s.f, s.slen, TopKind(s)).Number? ==>
      (Passes(text, s) <==> PassesOn(text, Step(true, text, s)))
    ensures Decide(text, s.i, s.f, s.slen, TopKind(s)) == Stop ==> !Passes(text, s)
  {
    hide Decide, Rank;
    StepProgress(true, text, s);
  }

  lemma {:induction false} Stops(text: string, s: State)
    requires NoNul(text) && s.i <= |text|
    ensures Decide(text, s.i, s.f, s.slen, TopKind(s)) == Stop ==> !Passes(text, s)
  {
    hide Decide, Rank, Passes;
    PassStep(text, s);
  }

  lemma {:induction false} Stays(text: string, s: State, f: Flags, i: nat)
    requires NoNul(text) && s.i <= |text| && i <= |text|
    requires Decide(text, s.i, s.f, s.slen, TopKind(s)) == Stay(f, i)
    ensures Passes(text, s) <==> Passes(text, s.(f := f, i := i))
  {
    hide Decide, Rank, Passes;
    PassStep(text, s);
  }

  lemma {:induction false} Finishes(text: string, s: State, f: Flags, i: nat)
    requires NoNul(text) && s.i <= |text|
    requires Decide(text, s.i, s.f, s.slen, TopKind(s)) == Finish(f, i)
    ensures Passes(text, s) <==> PassesOn(text, Complete(true, s.(f := f, i := i)))
  {
    hide Decide, Rank, Passes, Complete;
    PassStep(text, s);
  }

  lemma {:induction false} OpensString(text: string, s: State, f: Flags, i: nat)
    requires NoNul(text) && s.i <= |text| && i <= |text|
    requires Decide(text, s.i, s.f, s.slen, TopKind(s)) == OpenKey(f, i)
    ensures Passes(text, s) <==> Passes(text, s.(f := f, i := i, slen := 0))
  {
    hide Decide, Rank, Passes;
    PassStep(text, s);
  }

  lemma {:induction false} PassesRuns(text: string, s: State)
    requires NoNul(text) && s.i <= |text| && Passes(text, s)
    ensures Run(true, text, s).Accepted?
    decreases |text| - s.i, Rank(s)
  {
    hide Step, Rank, Decide;
    StepProgress(true, text, s);
    if Step(true, text, s).Go? {
      PassesRuns(text, Step(true, text, s).st);
    }
  }

  lemma {:induction false} ScanPasses(text: string, s: State)
    requires T.Scanning(text, s)
    ensures Passes(text, s) <==> PassesOn(text, Complete(true, T.ScanEnd(text, s)))
    decreases |text| - s.i
  {
    hide Complete, Rank, NumberStart, Scalar, CloseString, StringAdd, NewValue, DecideObject, DecideSeek, DecideString;
    var t := s.top.value;
    CompleteCursor(true, T.ScanEnd(text, s));
    PassStep(text, s);
    match DecideNumber(At(text, s.i), s.i, s.f, s.built[t].kind)
    case Stay(f, i) => ScanPasses(text, s.(f := f, i := i));
    case ToDouble(f, i) => ScanPasses(text, s.(f := f, i := i, built := s.built[t := s.built[t].(kind := KDouble)]));
    case Finish(f, i) =>
  }

  /** Where all tables fit, the second pass accepts exactly when the numbers are whole. */
  lemma {:induction false} SecondAcceptsIff(text: string, s1: State, s2: State, final: seq<Node>)
    requires NoNul(text) && s1.i <= |text| && T.WF(s1) && T.InStep(s1, s2, final) && T.AllFit(final)
    requires Run(true, text, s1) == Accepted(final)
    requires !(T.Quiet(s1.f) && TopKind(s1).Some? && NumberKind(TopKind(s1).value))
    ensures s2.i == s1.i && (Run(false, text, s2).Accepted? <==> Passes(text, s1))
    decreases |text| - s1.i, Rank(s1), 1
  {
    hide Step, Rank, T.Promise, Decide, T.InStep, T.WF, T.AllFit, T.Sound, Whole;
    T.InStepSame(s1, s2, final);
    FitIsSound(final);
    StepProgress(true, text, s1);
    StepProgress(false, text, s2);
    if Decide(text, s1.i, s1.f, s1.slen, TopKind(s1)).Number? {
      NumberAcceptsIff(text, s1, s2, final);
    } else {
      match Step(true, text, s1)
      case Go(s1') =>
        T.StepWF(text, s1, s1');
        T.FirstPassPromise(text, s1');
        T.NotToDouble(text, s1);
        T.InStepForward(text, s1, s2, s1', final);
        T.NotScanning(text, s1, s1');
        SecondAcceptsIff(text, s1', Step(false, text, s2).st, final);
      case Finished(nodes) => T.EndsTogether(text, s1, s2, final);
    }
  }

  lemma {:induction false} FitIsSound(final: seq<Node>)
    requires T.AllFit(final)
    ensures T.Sound(final)
  {
  }

  lemma {:induction false} NumberAcceptsIff(text: string, s1: State, s2: State, final: seq<Node>)
    requires NoNul(text) && s1.i <= |text| && T.WF(s1) && T.InStep(s1, s2, final) && T.AllFit(final)
    requires Run(true, text, s1) == Accepted(final)
    requires Decide(text, s1.i, s1.f, s1.slen, TopKind(s1)).Number?
    ensures s2.i == s1.i && (Run(false, text, s2).Accepted? <==> Passes(text, s1))
    decreases |text| - s1.i, Rank(s1), 0
  {
    hide T.Promise, Decide, T.InStep, T.WF, Complete, T.ScanEnd, Rank, T.Sound, T.AllFit, Step, T.Converted;
    T.InStepSame(s1, s2, final);
    FitIsSound(final);
    var f := Decide(text, s1.i, s1.f, s1.slen, TopKind(s1)).f;
    var begun, scanned, s1' := T.FirstPassNumber(text, s1, f);
    T.FirstPassPromise(text, s1');
    StepProgress(false, text, s2);
    StepProgress(true, text, s1);
    BeginsNumber(text, s1, f, begun);
    ScanPasses(text, begun);
    var s2' := T.SecondPassNumber(text, s1, s2, f, begun, scanned, s1', final);
    T.ScannedTop(text, begun, scanned);
    if s2'.i < scanned.i {
      T.CompleteWantsComma(scanned, s1');
      T.LeftoverIsNumeric(text, s1, begun, scanned, s2'.i);
      T.InStepKeeps(s1', s2', final);
      T.RejectsLeftover(text, s2');
    } else {
      assert s1'.(i := s2'.i) == s1';
      T.NotScanningAfter(scanned, s1');
      SecondAcceptsIff(text, s1', s2', final);
    }
  }

  lemma {:induction false} BeginsNumber(text: string, s: State, f: Flags, begun: State)
    requires NoNul(text) && s.i < |text| && Decide(text, s.i, s.f, s.slen, TopKind(s)) == Number(f)
    requires begun == s.(f := f, i := s.i + 1, built := s.built + [Fresh(KInteger, s.top)], top := Some(|s.built|))
    ensures Step(true, text, s) == Go(begun)
  {
    hide Decide;
  }

  // ------------------------------------------------------- the first pass, part by part

  /** What is on top is a container, or nothing is. */
  predicate Sits(s: State) {
    s.top.Some? ==> s.top.value < |s.built| && Container(s.built[s.top.value].kind)
  }

  /** In b the value that s was about to read has been read, and is about to be completed. */
  predicate Read(s: State, b: State) {
    && b.f == QUIET && b.slen == 0
    && b.top == Some(|s.built|) && |b.built| > |s.built|
    && b.built[..|s.built|] == s.built && b.built[|s.built|].parent == s.top
  }

  /** In c the container that s was about to read has n members. */
  predicate Holding(s: State, c: State, kind: Kind, n: nat) {
    && c.slen == 0 && c.top == Some(|s.built|) && |c.built| > |s.built|
    && c.built[..|s.built|] == s.built && c.built[|s.built|].parent == s.top
    && c.built[|s.built|].kind == kind && c.built[|s.built|].length == n
  }

  /** The first pass passes from c on if the part it is in ends at the end given, and it
    * passes from there on. */
  predicate Meant(text: string, s: State, c: State, b: State, end: Option<nat>)
    requires NoNul(text) && c.i <= |text|
  {
    match end
    case None => !Passes(text, c)
    case Some(e) => Read(s, b) && b.i == e && (Passes(text, c) <==> PassesOn(text, Complete(true, b)))
  }

  lemma {:induction false} PassesGap(text: string, s: State)
    requires NoNul(text) && s.i <= |text| && !s.f.inString
    requires s.f.done || s.f.seekValue || TopKind(s) == Some(KObject)
    ensures Passes(text, s) <==> Passes(text, s.(i := Past(text, s.i)))
    decreases |text| - s.i
  {
    hide Rank, Passes;
    if s.i < |text| && Space(text[s.i]) {
      PassStep(text, s);
      assert Step(true, text, s) == Go(s.(i := s.i + 1));
      PassesGap(text, s.(i := s.i + 1));
    } else {
      assert s.(i := Past(text, s.i)) == s;
    }
  }

  // ----------------------------------------------------------------------- strings

  lemma {:induction false} HexIs(c: char)
    ensures HexValue(c) == match Hex(c) case None => 0xFF case Some(v) => v
  {
  }

  lemma {:induction false} EscapeIs(text: string, i: nat)
    requires NoNul(text) && i <= |text|
    ensures match EscapeAt(text, i)
      case NoEscape => i == |text| || Decode(text, i) == BadEscape
      case Escape(width, bytes) =>
        i < |text| && Decode(text, i).Unit? && Decode(text, i).width == width && |Decode(text, i).bytes| == bytes
  {
    hide HexValue, Hex, EscapeBytes;
    if i < |text| && text[i] == 'u' {
      UnitIs(text, i);
    }
  }

  lemma {:induction false} UnitIs(text: string, i: nat)
    requires NoNul(text) && i < |text| && text[i] == 'u'
    ensures CodeUnit(text, i + 1).None? ==> Decode(text, i) == BadEscape
    ensures CodeUnit(text, i + 1).Some? ==>
      var unit := CodeUnit(text, i + 1).value;
      && Decode(text, i).Unit? && Decode(text, i).width == 5
      && |Decode(text, i).bytes| == if unit < 0x80 then 1 else if unit < 0x800 then 2 else 3
  {
    hide HexValue, Hex;
    HexIs(At(text, i + 1));
    HexIs(At(text, i + 2));
    HexIs(At(text, i + 3));
    HexIs(At(text, i + 4));
    NulNoHex();
  }

  lemma {:induction false} NulNoHex()
    ensures HexValue(NUL) == 0xFF
  {
  }

  /** A string up to its closing quote. */
  lemma {:induction false} ReadsChars(text: string, s: State) returns (q: State)
    requires NoNul(text) && s.i <= |text| && InsideString(s)
    ensures match AfterString(text, s.i, s.slen)
      case None => !Passes(text, s)
      case Some(e) =>
        && q == s.(i := e - 1, slen := q.slen) && q.slen <= LIMIT && e - 1 < |text| && text[e - 1] == '"'
        && (Passes(text, s) <==> Passes(text, q))
    decreases |text| - s.i
  {
    hide Rank, Passes, Decode, EscapeAt;
    q := s;
    PassStep(text, s);
    if s.i == |text| || s.slen > LIMIT {
      assert Decide(text, s.i, s.f, s.slen, TopKind(s)) == Stop;
    } else if text[s.i] == '"' {
    } else if text[s.i] == '\\' {
      q := ReadsEscape(text, s);
    } else {
      assert Step(true, text, s) == Go(s.(i := s.i + 1, slen := s.slen + 1));
      q := ReadsChars(text, s.(i := s.i + 1, slen := s.slen + 1));
    }
  }

  lemma {:induction false} ReadsEscape(text: string, s: State) returns (q: State)
    requires NoNul(text) && s.i < |text| && InsideString(s) && text[s.i] == '\\' && s.slen <= LIMIT
    ensures match AfterString(text, s.i, s.slen)
      case None => !Passes(text, s)
      case Some(e) =>
        && q == s.(i := e - 1, slen := q.slen) && q.slen <= LIMIT && e - 1 < |text| && text[e - 1] == '"'
        && (Passes(text, s) <==> Passes(text, q))
    decreases |text| - s.i, 0
  {
    hide Rank, Passes, Decode, EscapeAt;
    q := s;
    var mid := s.(i := s.i + 1, f := INSIDE.(escaped := true));
    PassStep(text, s);
    assert Step(true, text, s) == Go(mid);
    PassStep(text, mid);
    EscapeIs(text, mid.i);
    match EscapeAt(text, mid.i)
    case NoEscape => assert Decide(text, mid.i, mid.f, mid.slen, TopKind(mid)) == Stop;
    case Escape(width, bytes) =>
      var next := s.(i := mid.i + width, slen := s.slen + bytes);
      assert Step(true, text, mid) == Go(next);
      q := ReadsChars(text, next);
  }

  // -------------------------------------------------------------- what strings hold

  /** The bytes for a code unit: UTF-8 (section 3 of RFC 3629), surrogates taken one by one,
    * but for units of 0x100 to 0x7FF, whose upper bits land one place too high. */
  function UnitBytes(u: nat): string
    requires u < 0x1_0000
  {
    if u < 0x80 then [u as char]
    else if u < 0x100 then [(0xC0 + u / 64) as char, (0x80 + u % 64) as char]
    else if u < 0x800 then [(0xC0 + u / 256 % 4 * 8 + u % 256 / 64) as char, (0x80 + u % 64) as char]
    else [(0xE0 + u / 4096) as char, (0x80 + u / 64 % 64) as char, (0x80 + u % 64) as char]
  }

  /** What a backslash and the characters from i on stand for. */
  function Meaning(text: string, i: nat): string
    requires i <= |text| && EscapeAt(text, i).Escape?
  {
    if text[i] == 'u' then UnitBytes(CodeUnit(text, i + 1).value)
    else if text[i] == 'b' then [0x08 as char]
    else if text[i] == 't' then [0x09 as char]
    else if text[i] == 'n' then [0x0A as char]
    else if text[i] == 'f' then [0x0C as char]
    else if text[i] == 'r' then [0x0D as char]
    else [text[i]]
  }

  /** The bytes of a string whose characters stand from i on. */
  function Content(text: string, i: nat): string
    requires i <= |text|
    decreases |text| - i
  {
    if i == |text| || text[i] == '"' then ""
    else if text[i] == '\\' then
      match EscapeAt(text, i + 1)
      case NoEscape => ""
      case Escape(width, _) => Meaning(text, i + 1) + Content(text, i + 1 + width)
    else [text[i]] + Content(text, i + 1)
  }

  lemma {:induction false} UnitBytesAre(b1: nat, b2: nat)
    requires b1 < 256 && b2 < 256
    ensures EscapeBytes(b1, b2) == UnitBytes(256 * b1 + b2)
  {
    var u := 256 * b1 + b2;
    assert u / 256 == b1 && u % 256 == b2 && u % 64 == b2 % 64 && u / 64 == 4 * b1 + b2 / 64;
    if u >= 0x800 {
      assert u / 4096 == b1 / 16 && u / 64 % 64 == (b1 % 16) * 4 + b2 / 64;
    }
  }

  lemma {:induction false} MeaningIs(text: string, i: nat)
    requires NoNul(text) && i <= |text| && EscapeAt(text, i).Escape?
    ensures i < |text| && Decode(text, i) == Unit(Meaning(text, i), EscapeAt(text, i).width)
    ensures |Meaning(text, i)| == EscapeAt(text, i).bytes
  {
    hide HexValue, Hex, EscapeBytes, UnitBytes;
    EscapeIs(text, i);
    if text[i] == 'u' {
      var a, b := At(text, i + 1), At(text, i + 2);
      var c, d := At(text, i + 3), At(text, i + 4);
      HexIs(a);
      HexIs(b);
      HexIs(c);
      HexIs(d);
      UnitBytesAre(HexValue(a) * 16 + HexValue(b), HexValue(c) * 16 + HexValue(d));
    }
  }

  /** Either pass, inside any string that ends: the first counts its bytes, and the second,
    * given the room, has stored them when it comes to the closing quote. */
  lemma {:induction false} StoresContent(first: bool, text: string, s: State)
    requires NoNul(text) && s.i <= |text| && InsideString(s) && AfterString(text, s.i, s.slen).Some?
    requires !first ==> Room(s, |Content(text, s.i)|)
    ensures var e := AfterString(text, s.i, s.slen).value;
      var q := AfterChars(first, s, Content(text, s.i), e - 1 - s.i);
      && InsideString(q) && q.i < |text| && text[q.i] == '"'
      && Run(first, text, s) == Run(first, text, q)
    decreases |text| - s.i
  {
    hide Write, Rank, Decode, EscapeAt, Meaning, Step, Run;
    if text[s.i] == '"' {
      if !first {
        WriteNothing(s.built[s.top.value].mem, StringPos(s));
      }
      assert AfterChars(first, s, "", 0) == s;
    } else if text[s.i] == '\\' {
      var mid := s.(i := s.i + 1, f := INSIDE.(escaped := true));
      MeaningIs(text, mid.i);
      AppendsEscape(first, text, s, mid);
      StoresPart(first, text, s, mid, Meaning(text, mid.i), 1 + EscapeAt(text, mid.i).width);
    } else {
      AppendsChar(first, text, s);
      StoresPart(first, text, s, s, [text[s.i]], 1);
    }
  }

  lemma {:induction false} AppendsChar(first: bool, text: string, s: State)
    requires NoNul(text) && s.i < |text| && InsideString(s) && s.slen <= LIMIT && (!first ==> Room(s, 1))
    requires text[s.i] != '"' && text[s.i] != '\\'
    ensures Step(first, text, s) == Go(AfterChars(first, s, [text[s.i]], 1))
  {
    hide Write;
  }

  lemma {:induction false} AppendsEscape(first: bool, text: string, s: State, mid: State)
    requires NoNul(text) && s.i < |text| && InsideString(s) && s.slen <= LIMIT && text[s.i] == '\\'
    requires mid == s.(i := s.i + 1, f := INSIDE.(escaped := true)) && EscapeAt(text, mid.i).Escape?
    requires !first ==> Room(s, |Meaning(text, mid.i)|)
    ensures Run(first, text, s) == Run(first, text, mid)
    ensures Step(first, text, mid) == Go(AfterChars(first, s, Meaning(text, mid.i), 1 + EscapeAt(text, mid.i).width))
  {
    hide Write, Rank, Decode, EscapeAt, Meaning;
    StepProgress(first, text, s);
    assert Step(first, text, s) == Go(mid);
    MeaningIs(text, mid.i);
    assert text[mid.i] != NUL;
  }

  /** One character or escape, w characters wide, and then the rest. */
  lemma {:induction false} StoresPart(first: bool, text: string, s: State, mid: State, bytes: string, w: nat)
    requires NoNul(text) && s.i < |text| && InsideString(s) && w > 0 && s.i + w <= |text| && s.i <= mid.i <= |text|
    requires AfterString(text, s.i, s.slen).Some?
    requires AfterString(text, s.i, s.slen) == AfterString(text, s.i + w, s.slen + |bytes|)
    requires Content(text, s.i) == bytes + Content(text, s.i + w) && (!first ==> Room(s, |Content(text, s.i)|))
    requires Step(first, text, mid) == Go(AfterChars(first, s, bytes, w))
    requires Run(first, text, s) == Run(first, text, mid)
    ensures var e := AfterString(text, s.i, s.slen).value;
      var q := AfterChars(first, s, Content(text, s.i), e - 1 - s.i);
      && InsideString(q) && q.i < |text| && text[q.i] == '"'
      && Run(first, text, s) == Run(first, text, q)
    decreases |text| - s.i, 0
  {
    hide Write, Rank, Step, AfterString, Content;
    StepProgress(first, text, mid);
    var next := AfterChars(first, s, bytes, w);
    var rest := Content(text, s.i + w);
    AfterParts(first, s, bytes, rest, w, AfterString(text, s.i, s.slen).value - 1 - s.i - w);
    StoresContent(first, text, next);
  }

  // -------------------------------------------------------------- completing a value

  const DONE := QUIET.(needComma := true, done := true)

  lemma {:induction false} CompletesRead(s: State, b: State)
    requires Read(s, b) && Sits(s)
    ensures s.top.None? ==> Complete(true, b) == Go(b.(f := DONE))
    ensures s.top.Some? ==>
      var p := s.top.value; var n := s.built[p];
      Complete(true, b) ==
        if n.length + 1 > LIMIT then Rejected(b.(built := b.built[p := n.(length := n.length + 1)], top := Some(p)))
        else Go(b.(f := After(n), built := b.built[p := n.(length := n.length + 1)], top := Some(p)))
  {
    if s.top.Some? {
      assert b.built[s.top.value] == b.built[..|s.built|][s.top.value];
    }
  }

  /** Where a value ends, no character of a number may follow. */
  lemma {:induction false} NoMoreNumber(text: string, s: State, b: State)
    requires NoNul(text) && Read(s, b) && Sits(s) && b.i < |text| && InNumber(text[b.i])
    ensures !PassesOn(text, Complete(true, b))
  {
    hide Complete, Rank, Passes, Decide;
    CompletesRead(s, b);
    if Complete(true, b).Go? {
      var c := Complete(true, b).st;
      StopsAtFigure(text, c);
      PassStep(text, c);
    }
  }

  lemma {:induction false} StopsAtFigure(text: string, c: State)
    requires NoNul(text) && c.i < |text| && InNumber(text[c.i])
    requires c.f == DONE || (c.f == WAIT && TopKind(c) == Some(KArray))
      || (c.f == QUIET.(needComma := true) && TopKind(c) == Some(KObject))
    ensures Decide(text, c.i, c.f, c.slen, TopKind(c)) == Stop
  {
  }

  // ----------------------------------------------------------------------- numbers

  lemma {:induction false} NumeralsEnd(text: string, i: nat)
    requires i <= |text|
    ensures PastNumerals(text, i) == DigitsEnd(text, i)
    decreases |text| - i
  {
    if i < |text| && Numeral(text[i]) {
      NumeralsEnd(text, i + 1);
    }
  }

  lemma {:induction false} MarkAt(text: string, i: nat, c: char)
    requires c != NUL
    ensures HasAt(text, i, [c]) <==> At(text, i) == c
    ensures HasAt(text, i, [c]) ==> i < |text|
  {
    if HasAt(text, i, [c]) {
      HasHead(text, i, [c]);
    }
  }

  lemma {:induction false} MarksAt(text: string, i: nat)
    ensures HasAt(text, i, ".") <==> At(text, i) == '.'
    ensures HasAt(text, i, "e") <==> At(text, i) == 'e'
    ensures HasAt(text, i, "E") <==> At(text, i) == 'E'
    ensures HasAt(text, i, "+") <==> At(text, i) == '+'
    ensures HasAt(text, i, "-") <==> At(text, i) == '-'
    ensures At(text, i) != NUL ==> i < |text|
  {
    hide HasAt;
    MarkAt(text, i, '.');
    MarkAt(text, i, 'e');
    MarkAt(text, i, 'E');
    MarkAt(text, i, '+');
    MarkAt(text, i, '-');
  }

  /** strtod takes a number to its end, and where there is none it takes nothing or stops at
    * the letter of an exponent. */
  lemma {:induction false} FormIsStrtod(text: string, i: nat)
    requires NoNul(text) && i < |text|
    ensures AfterForm(text, i).Some? ==> StrtodEnd(text, i) == AfterForm(text, i).value
    ensures AfterForm(text, i).None? ==>
      var j := StrtodEnd(text, i);
      j == i || (j < |text| && InNumber(text[j]))
  {
    hide HasAt, PastNumerals, DigitsEnd;
    var start := if text[i] == '-' then i + 1 else i;
    NumeralsEnd(text, start);
    var whole := PastNumerals(text, start);
    MarksAt(text, whole);
    var part := whole;
    if At(text, whole) == '.' {
      NumeralsEnd(text, whole + 1);
      part := PastNumerals(text, whole + 1);
    }
    MarksAt(text, part);
    if At(text, part) == 'e' || At(text, part) == 'E' {
      MarksAt(text, part + 1);
      var digits := if At(text, part + 1) == '+' || At(text, part + 1) == '-' then part + 2 else part + 1;
      NumeralsEnd(text, digits);
    }
  }

  lemma {:induction false} DoubleStays(text: string, s: State)
    requires T.Scanning(text, s) && s.built[s.top.value].kind.KDouble?
    ensures T.ScanEnd(text, s).built[s.top.value].kind.KDouble?
    decreases |text| - s.i
  {
    match DecideNumber(At(text, s.i), s.i, s.f, s.built[s.top.value].kind)
    case Stay(f, i) => DoubleStays(text, s.(f := f, i := i));
    case ToDouble(f, i) =>
      DoubleStays(text, s.(f := f, i := i, built := s.built[s.top.value := s.built[s.top.value].(kind := KDouble)]));
    case _ =>
  }

  /** Scanned as an integer: a minus or none, and digits, with no point or exponent behind. */
  lemma {:induction false} ScannedInteger(text: string, s: State, start: nat)
    requires T.NumberBegun(text, s, start) && T.ScanEnd(text, s).built[s.top.value].kind.KInteger?
    ensures var end := T.ScanEnd(text, s).i; var digits := if text[start] == '-' then start + 1 else start;
      && DigitsEnd(text, digits) == end
      && At(text, end) != '.' && At(text, end) != 'e' && At(text, end) != 'E'
  {
    hide DigitsEnd, T.ScanEnd, T.AsDouble;
    assert At(text, start) == text[start];
    var digits := if text[start] == '-' then start + 1 else start;
    var whole := DigitsEnd(text, digits);
    T.ScanDigits(text, s, whole);
    var at := s.(i := whole);
    if At(text, whole) == '.' {
      T.ScanDot(text, at);
      AsDoubleIs(at.(i := whole + 1));
      DoubleStays(text, T.AsDouble(at.(i := whole + 1)));
    } else if At(text, whole) == 'e' || At(text, whole) == 'E' {
      T.ScanExponent(text, at);
      AsDoubleIs(at.(i := whole + 1, f := at.f.(exponent := true)));
      DoubleStays(text, T.AsDouble(at.(i := whole + 1, f := at.f.(exponent := true))));
    } else {
      ScanStopsHere(text, at);
    }
  }

  lemma {:induction false} AsDoubleIs(s: State)
    requires s.top.Some? && s.top.value < |s.built|
    ensures var d := T.AsDouble(s);
      d.i == s.i && d.f == s.f && d.top == s.top && |d.built| == |s.built| && d.built[s.top.value].kind.KDouble?
  {
  }

  lemma {:induction false} ScanStopsHere(text: string, s: State)
    requires T.Scanning(text, s) && !s.f.exponent && !s.f.gotSign
    requires var c := At(text, s.i); !Digit(c) && c != '.' && c != 'e' && c != 'E'
    ensures T.ScanEnd(text, s).i == s.i
  {
  }

  /** What the first pass scans, and where strtol or strtod stops in it. */
  lemma {:induction false} NumberIs(text: string, s: State, start: nat)
    requires T.NumberBegun(text, s, start)
    ensures var end := T.ScanEnd(text, s);
      match AfterNumber(text, start)
      case None => Whole(text, start, s) ==> end.i < |text| && InNumber(text[end.i])
      case Some(e) => Whole(text, start, s) && end.i == e
  {
    hide T.ScanEnd, AfterForm, StrtodEnd, DigitsEnd;
    var end := T.ScanEnd(text, s);
    FormIsStrtod(text, start);
    T.StrtodWithinScan(text, s, start);
    if end.built[s.top.value].kind.KInteger? {
      ScannedInteger(text, s, start);
      IntegerForm(text, start, end.i);
    }
    var e := AfterNumber(text, start);
    if e.Some? && e.value < |text| {
      assert T.Numeric(text[e.value]) <==> InNumber(text[e.value]);
    }
  }

  lemma {:induction false} IntegerForm(text: string, i: nat, end: nat)
    requires NoNul(text) && i < |text|
    requires var digits := if text[i] == '-' then i + 1 else i; DigitsEnd(text, digits) == end
    requires At(text, end) != '.' && At(text, end) != 'e' && At(text, end) != 'E'
    ensures var digits := if text[i] == '-' then i + 1 else i;
      AfterForm(text, i) == if end == digits then None else Some(end)
  {
    hide HasAt, PastNumerals, DigitsEnd;
    NumeralsEnd(text, if text[i] == '-' then i + 1 else i);
    MarksAt(text, end);
  }

  lemma {:induction false} ReadsNumber(text: string, s: State) returns (b: State)
    requires NoNul(text) && s.i < |text| && s.f == SEEK && s.slen == 0 && Sits(s)
    requires text[s.i] == '-' || Numeral(text[s.i])
    ensures Meant(text, s, s, b, AfterNumber(text, s.i))
  {
    hide T.ScanEnd, AfterNumber, Rank, Complete, Decide;
    var begun := s.(f := QUIET, i := s.i + 1, built := s.built + [Fresh(KInteger, s.top)], top := Some(|s.built|));
    DecidesNumber(text, s);
    BeginsNumber(text, s, QUIET, begun);
    NumberIs(text, begun, s.i);
    ScanPasses(text, begun);
    b := T.ScanEnd(text, begun);
    assert Read(s, b);
    if b.i < |text| && InNumber(text[b.i]) {
      NoMoreNumber(text, s, b);
    }
  }

  lemma {:induction false} DecidesNumber(text: string, s: State)
    requires s.i < |text| && s.f == SEEK && (text[s.i] == '-' || Numeral(text[s.i]))
    ensures Decide(text, s.i, s.f, s.slen, TopKind(s)) == Number(QUIET)
  {
  }

  // ------------------------------------------------------------------------ values

  lemma {:induction false} WordAt(text: string, i: nat)
    requires i < |text|
    ensures HasAt(text, i, "true") <==> text[i] == 't' && Follows(text, i + 1, "rue")
    ensures HasAt(text, i, "null") <==> text[i] == 'n' && Follows(text, i + 1, "ull")
    ensures HasAt(text, i, "false") <==> text[i] == 'f' && Follows(text, i + 1, "alse")
  {
    WordSplits(text, i, 't', "rue");
    WordSplits(text, i, 'n', "ull");
    WordSplits(text, i, 'f', "alse");
  }

  lemma {:induction false} WordSplits(text: string, i: nat, c: char, rest: string)
    requires i < |text|
    ensures HasAt(text, i, [c] + rest) <==> text[i] == c && Follows(text, i + 1, rest)
  {
    HasBoth(text, i, [c], rest);
    if HasAt(text, i, [c]) {
      HasHead(text, i, [c]);
    }
  }

  lemma {:induction false} ReadsWord(text: string, s: State, kind: Kind, truth: bool, width: nat) returns (b: State)
    requires NoNul(text) && s.i + width <= |text| && s.f == SEEK && s.slen == 0 && Sits(s)
    requires Decide(text, s.i, s.f, s.slen, TopKind(s)) == Literal(kind, truth, QUIET, s.i + width)
    ensures Meant(text, s, s, b, Some(s.i + width))
  {
    hide Rank, Complete, Decide, Passes;
    PassStep(text, s);
    var n := Fresh(kind, s.top);
    b := s.(f := QUIET, i := s.i + width, built := s.built + [if truth then n.(truth := true) else n],
            top := Some(|s.built|));
    assert MarkTruth(s.built + [n], |s.built|, truth) == b.built;
  }

  lemma {:induction false} ReadsString(text: string, s: State) returns (b: State)
    requires NoNul(text) && s.i < |text| && s.f == SEEK && s.slen == 0 && Sits(s) && text[s.i] == '"'
    ensures Meant(text, s, s, b, AfterString(text, s.i + 1, 0))
  {
    hide Rank, Complete, Passes, AfterString, CloseString;
    b := s;
    PassStep(text, s);
    var c := s.(f := INSIDE, i := s.i + 1, built := s.built + [Fresh(KString, s.top)], top := Some(|s.built|));
    assert Step(true, text, s) == Go(c);
    var q := ReadsChars(text, c);
    if AfterString(text, c.i, 0).Some? {
      b := q.(f := QUIET, i := q.i + 1, slen := 0,
              built := c.built[|s.built| := Fresh(KString, s.top).(length := q.slen)]);
      ClosesValue(text, q, b);
    }
  }

  lemma {:induction false} ClosesValue(text: string, q: State, b: State)
    requires NoNul(text) && q.i < |text| && text[q.i] == '"' && q.f == INSIDE && q.slen <= LIMIT
    requires q.top.Some? && q.top.value < |q.built| && q.built[q.top.value].kind.KString?
    requires b == q.(f := QUIET, i := q.i + 1, slen := 0,
                     built := q.built[q.top.value := q.built[q.top.value].(length := q.slen)])
    ensures Passes(text, q) <==> PassesOn(text, Complete(true, b))
  {
    hide Rank, Complete, Passes;
    PassStep(text, q);
  }

  /** An array from some element on; c has n elements. */
  lemma {:induction false} ReadsElements(text: string, s: State, c: State, comma: bool, n: nat) returns (b: State)
    requires NoNul(text) && c.i <= |text| && Sits(s) && Holding(s, c, KArray, n)
    requires c.f == if comma then WAIT else SEEK
    ensures Meant(text, s, c, b, AfterElements(text, c.i, comma, n))
    decreases |text| - c.i, 2
  {
    hide Rank, Complete, Passes, Decide, AfterValue, Step, HasAt, Past, Holding, Read;
    b := s;
    HoldingMoves(s, c, KArray, n);
    FlagFacts();
    PassesGap(text, c);
    var p := c.(i := Past(text, c.i));
    Stops(text, p);
    BracketAt(text, p.i);
    if At(text, p.i) == ']' {
      b := p.(i := p.i + 1, f := QUIET);
      ElementDecides(text, p, comma);
      Finishes(text, p, QUIET, p.i + 1);
    } else if comma {
      ElementDecides(text, p, comma);
      if At(text, p.i) == ',' {
        Stays(text, p, SEEK, p.i + 1);
        b := ReadsElements(text, s, p.(i := p.i + 1, f := SEEK), false, n);
      }
    } else {
      var v := ReadsValue(text, p);
      if AfterValue(text, p.i).Some? {
        CompletesRead(p, v);
        if n + 1 <= LIMIT {
          var d := Complete(true, v).st;
          Joins(s, p, v, KArray, n);
          b := ReadsElements(text, s, d, true, n + 1);
        }
      }
    }
  }

  lemma {:induction false} HoldingMoves(s: State, c: State, kind: Kind, n: nat)
    requires Holding(s, c, kind, n) && Container(kind)
    ensures c.slen == 0 && TopKind(c) == Some(kind) && Sits(c)
    ensures c.top.Some? && c.built[c.top.value].length == n
    ensures forall i, f :: Holding(s, c.(i := i, f := f), kind, n)
    ensures forall i :: Read(s, c.(i := i, f := QUIET))
  {
  }

  lemma {:induction false} BracketAt(text: string, i: nat)
    ensures HasAt(text, i, "]") <==> At(text, i) == ']'
    ensures HasAt(text, i, "}") <==> At(text, i) == '}'
    ensures HasAt(text, i, ",") <==> At(text, i) == ','
    ensures HasAt(text, i, ":") <==> At(text, i) == ':'
    ensures HasAt(text, i, "\"") <==> At(text, i) == '"'
    ensures At(text, i) != NUL ==> i < |text|
  {
    hide HasAt;
    MarkAt(text, i, ']');
    MarkAt(text, i, '}');
    MarkAt(text, i, ',');
    MarkAt(text, i, ':');
    MarkAt(text, i, '"');
  }

  /** At a character that is no blank, in an array. */
  lemma {:induction false} ElementDecides(text: string, p: State, comma: bool)
    requires NoNul(text) && p.i <= |text| && TopKind(p) == Some(KArray) && p.slen == 0
    requires p.f == (if comma then WAIT else SEEK) && (p.i < |text| ==> !Space(text[p.i]))
    requires At(text, p.i) == ']' || comma
    ensures Decide(text, p.i, p.f, p.slen, TopKind(p))
      == if At(text, p.i) == ']' then Finish(QUIET, p.i + 1)
         else if At(text, p.i) == ',' then Stay(SEEK, p.i + 1) else Stop
  {
  }

  /** A value completed in the container is one more member of it. */
  lemma {:induction false} Joins(s: State, p: State, v: State, kind: Kind, n: nat)
    requires Sits(s) && Holding(s, p, kind, n) && Container(kind) && Read(p, v) && n + 1 <= LIMIT
    requires Complete(true, v).Go?
    ensures var d := Complete(true, v).st;
      Holding(s, d, kind, n + 1) && d.f == (if kind.KArray? then WAIT else QUIET.(needComma := true)) && d.i == v.i
  {
    hide Complete;
    CompletesRead(p, v);
    var d := Complete(true, v).st;
    assert v.built[..|s.built|] == v.built[..|p.built|][..|s.built|];
    assert v.built[|s.built|] == v.built[..|p.built|][|s.built|];
    assert d.built[..|s.built|] == v.built[..|s.built|];
  }

  /** An object from some member on; c has n members. */
  lemma {:induction false} ReadsMembers(text: string, s: State, c: State, comma: bool, n: nat) returns (b: State)
    requires NoNul(text) && c.i <= |text| && Sits(s) && Holding(s, c, KObject, n)
    requires c.f == QUIET.(needComma := comma)
    ensures Meant(text, s, c, b, AfterMembers(text, c.i, comma, n))
    decreases |text| - c.i, 2
  {
    hide Rank, Complete, Passes, Decide, AfterValue, AfterKey, Step, HasAt, Past, Holding, Read;
    b := s;
    HoldingMoves(s, c, KObject, n);
    FlagFacts();
    PassesGap(text, c);
    var p := c.(i := Past(text, c.i));
    Stops(text, p);
    BracketAt(text, p.i);
    MemberDecides(text, p, comma);
    if At(text, p.i) == '}' {
      b := p.(i := p.i + 1, f := QUIET);
      Finishes(text, p, QUIET, p.i + 1);
    } else if comma {
      if At(text, p.i) == ',' {
        Stays(text, p, QUIET, p.i + 1);
        b := ReadsMembers(text, s, p.(i := p.i + 1, f := QUIET), false, n);
      }
    } else if At(text, p.i) == '"' {
      OpensString(text, p, INSIDE, p.i + 1);
      var k := ReadsKeyPart(text, s, p.(i := p.i + 1, f := INSIDE), n);
      if AfterKey(text, p.i + 1).Some? {
        HoldingMoves(s, k, KObject, n);
        var v := ReadsValue(text, k);
        if AfterValue(text, k.i).Some? {
          CompletesRead(k, v);
          if n + 1 <= LIMIT {
            var d := Complete(true, v).st;
            Joins(s, k, v, KObject, n);
            b := ReadsMembers(text, s, d, true, n + 1);
          }
        }
      }
    }
  }

  lemma {:induction false} MemberDecides(text: string, p: State, comma: bool)
    requires NoNul(text) && p.i <= |text| && TopKind(p) == Some(KObject) && p.slen == 0
    requires p.f == QUIET.(needComma := comma) && (p.i < |text| ==> !Space(text[p.i]))
    ensures Decide(text, p.i, p.f, p.slen, TopKind(p))
      == if At(text, p.i) == '}' then Finish(QUIET, p.i + 1)
         else if At(text, p.i) == ',' && comma then Stay(QUIET, p.i + 1)
         else if At(text, p.i) == '"' && !comma then OpenKey(INSIDE, p.i + 1) else Stop
  {
  }

  /** From the first character of a key to the value. */
  lemma {:induction false} ReadsKeyPart(text: string, s: State, c: State, n: nat) returns (k: State)
    requires NoNul(text) && c.i <= |text| && Sits(s) && Holding(s, c, KObject, n) && c.f == INSIDE
    ensures AfterKey(text, c.i).None? ==> !Passes(text, c)
    ensures AfterKey(text, c.i).Some? ==>
      && Holding(s, k, KObject, n) && k.f == SEEK && k.i == AfterKey(text, c.i).value
      && (k.i < |text| ==> !Space(text[k.i])) && (Passes(text, c) <==> Passes(text, k))
  {
    hide Rank, Complete, Passes, Decide, AfterString;
    k := c;
    var q := ReadsChars(text, c);
    if AfterString(text, c.i, 0).Some? {
      var t := |s.built|;
      k := q.(f := SEEK.(needColon := true), i := q.i + 1, slen := 0,
              built := c.built[t := c.built[t].(keyBytes := c.built[t].keyBytes + q.slen + 1)]);
      ClosesKey(text, q, k);
      FlagFacts();
      PassesGap(text, k);
      k := k.(i := Past(text, k.i));
      PassStep(text, k);
      BracketAt(text, k.i);
      ColonDecides(text, k);
      if At(text, k.i) == ':' {
        k := k.(i := k.i + 1, f := SEEK);
        PassesGap(text, k);
        k := k.(i := Past(text, k.i));
      }
    }
  }

  lemma {:induction false} ClosesKey(text: string, q: State, k: State)
    requires NoNul(text) && q.i < |text| && text[q.i] == '"' && q.f == INSIDE && q.slen <= LIMIT
    requires q.top.Some? && q.top.value < |q.built| && q.built[q.top.value].kind.KObject?
    requires var n := q.built[q.top.value];
      k == q.(f := SEEK.(needColon := true), i := q.i + 1, slen := 0,
              built := q.built[q.top.value := n.(keyBytes := n.keyBytes + q.slen + 1)])
    ensures Passes(text, q) <==> Passes(text, k)
  {
    hide Rank, Complete, Passes;
    PassStep(text, q);
  }

  lemma {:induction false} ColonDecides(text: string, k: State)
    requires NoNul(text) && k.i <= |text| && TopKind(k) == Some(KObject) && k.slen == 0
    requires k.f == SEEK.(needColon := true) && (k.i < |text| ==> !Space(text[k.i]))
    ensures Decide(text, k.i, k.f, k.slen, TopKind(k))
      == if At(text, k.i) == ':' then Stay(SEEK, k.i + 1) else Stop
  {
  }

  /** Any value, where there is no blank before it. */
  lemma {:induction false} ReadsValue(text: string, s: State) returns (b: State)
    requires NoNul(text) && s.i <= |text| && s.f == SEEK && s.slen == 0 && Sits(s)
    requires s.i < |text| ==> !Space(text[s.i])
    requires At(text, s.i) == ']' ==> TopKind(s) != Some(KArray)
    ensures Meant(text, s, s, b, AfterValue(text, s.i))
    decreases |text| - s.i, 1
  {
    hide Rank, Complete, Passes, Decide, AfterString, AfterForm, AfterElements, AfterMembers;
    b := s;
    PassStep(text, s);
    if s.i == |text| {
      ValueDecides(text, s);
    } else if text[s.i] == '{' {
      ValueDecides(text, s);
      var c := s.(f := QUIET, i := s.i + 1, built := s.built + [Fresh(KObject, s.top)], top := Some(|s.built|));
      b := ReadsMembers(text, s, c, false, 0);
    } else if text[s.i] == '[' {
      ValueDecides(text, s);
      var c := s.(f := SEEK, i := s.i + 1, built := s.built + [Fresh(KArray, s.top)], top := Some(|s.built|));
      b := ReadsElements(text, s, c, false, 0);
    } else if text[s.i] == '"' {
      b := ReadsString(text, s);
    } else {
      WordAt(text, s.i);
      ValueDecides(text, s);
      if HasAt(text, s.i, "true") {
        b := ReadsWord(text, s, KBoolean, true, 4);
      } else if HasAt(text, s.i, "null") {
        b := ReadsWord(text, s, KNull, false, 4);
      } else if HasAt(text, s.i, "false") {
        b := ReadsWord(text, s, KBoolean, false, 5);
      } else if text[s.i] == '-' || Numeral(text[s.i]) {
        b := ReadsNumber(text, s);
      }
    }
  }

  lemma {:induction false} ValueDecides(text: string, s: State)
    requires NoNul(text) && s.i <= |text| && s.f == SEEK && s.slen == 0 && Sits(s)
    requires s.i < |text| ==> !Space(text[s.i])
    requires At(text, s.i) == ']' ==> TopKind(s) != Some(KArray)
    ensures var a := Decide(text, s.i, s.f, s.slen, TopKind(s)); var b := At(text, s.i);
      if b == '{' then a == Create(KObject, QUIET, s.i + 1)
      else if b == '[' then a == Create(KArray, SEEK, s.i + 1)
      else if b == '"' then a == Create(KString, INSIDE, s.i + 1)
      else if b == 't' && Follows(text, s.i + 1, "rue") then a == Literal(KBoolean, true, QUIET, s.i + 4)
      else if b == 'n' && Follows(text, s.i + 1, "ull") then a == Literal(KNull, false, QUIET, s.i + 4)
      else if b == 'f' && Follows(text, s.i + 1, "alse") then a == Literal(KBoolean, false, QUIET, s.i + 5)
      else if b == '-' || Numeral(b) then a == Number(QUIET)
      else a == Stop || a == NullTop
  {
    hide Follows;
  }

  // ------------------------------------------------------------------------- texts

  lemma {:induction false} PassesRest(text: string, s: State)
    requires NoNul(text) && s.i <= |text| && s.f == DONE
    ensures Passes(text, s) <==> Past(text, s.i) == |text|
  {
    hide Rank, Passes;
    PassesGap(text, s);
    PassStep(text, s.(i := Past(text, s.i)));
  }

  lemma {:induction false} PassesIff(text: string)
    requires NoNul(text)
    ensures Passes(text, Start([])) <==> Grammatical(text)
  {
    hide Passes, AfterValue, Complete;
    var s := Start([]);
    PassesGap(text, s);
    var p := s.(i := Past(text, 0));
    var b := ReadsValue(text, p);
    if AfterValue(text, p.i).Some? {
      CompletesRead(p, b);
      PassesRest(text, b.(f := DONE));
    }
  }

  /** The parser accepts a text exactly when it is grammatical and no table measured for it
    * wraps. */
  lemma {:induction false} AcceptsIff(text: string)
    requires NoNul(text)
    ensures Grammatical(text) ==> Pass1(text).Accepted?
    ensures Parse(text).Accepted? <==>
      Grammatical(text) && Pass1(text).Accepted? && T.AllFit(Pass1(text).nodes)
  {
    hide Run, Passes, Grammatical, T.AllFit, T.Sound, T.Filled;
    PassesIff(text);
    if Grammatical(text) {
      PassesRuns(text, Start([]));
    }
    if Pass1(text).Accepted? {
      T.SecondPassIsSafe(text);
      if T.AllFit(Pass1(text).nodes) {
        SecondAcceptsIff(text, Start([]), Start(Pass1(text).nodes), Pass1(text).nodes);
      }
    }
  }

  /** Texts under 2^27 bytes are accepted exactly when they are grammatical. */
  lemma {:induction false} ShortAcceptsIff(text: string)
    requires NoNul(text) && |text| < MAX_MEMBERS
    ensures Parse(text).Accepted? <==> Grammatical(text)
  {
    hide Run, Grammatical, T.WF;
    AcceptsIff(text);
    if Pass1(text).Accepted? {
      StartIsSparse();
      T.MeasuresSparse(text, Start([]));
    }
  }

  lemma {:induction false} StartIsSparse()
    ensures T.WF(Start([])) && T.Sparse(Start([]))
  {
  }
}
