/** What the first pass measures is enough for the second.
  *
  * Main results: the first pass dereferences a null pointer exactly when the first
  * character that is not blank is ']' (FirstPassCrashIff); after a completed first pass
  * that measured no object whose table wraps to a smaller size and no root that is refused
  * its memory, the second pass never does, never runs out of nodes and never writes outside
  * what was measured, even when it then rejects the text (SecondPassIsSafe); and when it
  * accepts, no table wrapped, and it has taken every node and filled every table to its
  * measured length.  A refused root always ends in a null read (RefusedRootFaults).  Texts
  * under 2^27 bytes have no such tables (ShortTextCrashIff).
  */
module JsonTwoPass {
  import opened Options
  import opened JsonMachine

  // ------------------------------------------------ the shape of reachable states

  predicate ParentOk(built: seq<Node>, k: nat)
    requires k < |built|
  {
    match built[k].parent
    case None => true
    case Some(p) => p < k && Container(built[p].kind)
  }

  /** Parents come before their children and are containers. */
  predicate Tree(built: seq<Node>) {
    forall k: nat | k < |built| :: ParentOk(built, k)
  }

  /** What may be on top in each mode of the machine. */
  predicate ModeOk(f: Flags, top: Option<Kind>) {
    if f.done then !f.inString && !f.seekValue && top.Some?
    else if f.inString then !f.seekValue && top.Some? && (top.value.KString? || top.value.KObject?)
    else if f.seekValue then ContainerOrNone(top)
    else top.Some? && (top.value.KObject? || NumberKind(top.value))
  }

  predicate ContainerOrNone(top: Option<Kind>) {
    top.Some? ==> Container(top.value)
  }

  /** Between two values, as far as the flags tell. */
  predicate Quiet(f: Flags) {
    !f.done && !f.inString && !f.seekValue
  }

  /** The nodes form a forest and top is one of them. */
  predicate Rooted(s: State) {
    && Tree(s.built)
    && (s.top.None? <==> s.built == [])
    && (s.top.Some? ==> s.top.value < |s.built|)
  }

  predicate WF(s: State) {
    Rooted(s) && ModeOk(s.f, TopKind(s))
  }

  predicate SameMode(f: Flags, g: Flags) {
    f.done == g.done && f.inString == g.inString && f.seekValue == g.seekValue
  }

  predicate ActOk(text: string, i: nat, f: Flags, top: Option<Kind>, a: Act) {
    match a
    case Stay(g, _) => SameMode(f, g)
    case OpenKey(g, _) => top == Some(KObject) && Quiet(f) && SameMode(g, f.(inString := true))
    case Create(kind, g, _) =>
      !f.done && !f.inString && ContainerOrNone(top) && ModeOk(g, Some(kind)) && !g.done && !NumberKind(kind)
    case Literal(kind, _, g, _) =>
      !f.done && !f.inString && ContainerOrNone(top) && Quiet(g) && (kind.KBoolean? || kind.KNull?)
    case Number(g) => !f.done && !f.inString && f.seekValue && ContainerOrNone(top) && Quiet(g)
    case Append(_, g, _) => SameMode(f, g) && f.inString && !f.done && top.Some?
    case Close(g, _) => f.inString && !f.done && Quiet(g) && (top == Some(KString) || top == Some(KObject))
    case Finish(g, _) => !f.done && !f.inString && top.Some? && Quiet(g) && (f.seekValue ==> top.value.KArray?)
    case ToDouble(g, _) => Quiet(f) && Quiet(g) && top.Some? && NumberKind(top.value)
    case End => f.done
    case Stop => true
    case NullTop => top.None? && At(text, i) == ']' && !f.done && !f.inString && f.seekValue
  }

  lemma {:induction false} DecideOk(text: string, i: nat, f: Flags, slen: nat, top: Option<Kind>)
    requires ModeOk(f, top)
    ensures ActOk(text, i, f, top, Decide(text, i, f, slen, top))
  {
    hide Decode, Blank, Digit, Follows, DecideString, DecideSeek;
    if !f.done && f.inString {
      DecideStringOk(text, i, f, slen, top);
    } else if !f.done && f.seekValue {
      DecideSeekOk(text, i, f, top);
    }
  }

  lemma {:induction false} DecideStringOk(text: string, i: nat, f: Flags, slen: nat, top: Option<Kind>)
    requires f.inString && !f.done && ModeOk(f, top)
    ensures ActOk(text, i, f, top, DecideString(text, i, f, slen))
  {
    hide Decode;
  }

  lemma {:induction false} DecideSeekOk(text: string, i: nat, f: Flags, top: Option<Kind>)
    requires !f.done && !f.inString && f.seekValue && ContainerOrNone(top)
    ensures ActOk(text, i, f, top, DecideSeek(text, i, f, top))
  {
    hide Blank, Digit, Follows;
  }

  predicate SameShape(b1: seq<Node>, b2: seq<Node>) {
    && |b1| <= |b2|
    && forall k | 0 <= k < |b1| :: b1[k].parent == b2[k].parent
  }

  // ------------------------------------- first-pass memory operations, in detail

  lemma {:induction false} NewValueShape(s: State, kind: Kind, s': State)
    requires Rooted(s) && ContainerOrNone(TopKind(s)) && NewValue(true, s, kind) == Go(s')
    ensures s' == s.(built := s.built + [Fresh(kind, s.top)], top := Some(|s.built|))
    ensures Rooted(s')
  {
    forall k: nat | k < |s'.built| ensures ParentOk(s'.built, k) {
      assert k < |s.built| ==> ParentOk(s.built, k);
    }
  }

  lemma {:induction false} UpdateKeepsTree(built: seq<Node>, t: nat, n: Node)
    requires Tree(built) && t < |built| && n.parent == built[t].parent
    requires Container(built[t].kind) ==> Container(n.kind)
    ensures Tree(built[t := n])
  {
    var b := built[t := n];
    forall k: nat | k < |b| ensures ParentOk(b, k) {
      assert ParentOk(built, k);
    }
  }

  lemma {:induction false} CompleteShape(s: State, s': State)
    requires Rooted(s) && s.top.Some? && Quiet(s.f) && Complete(true, s) == Go(s')
    ensures WF(s') && s'.slen == s.slen && s'.pool == s.pool && s'.i == s.i
    ensures match s.built[s.top.value].parent
      case None => s'.f.done && !s'.f.inString && s'.built == s.built && s'.top == s.top
      case Some(p) =>
        && !s'.f.done && !s'.f.inString && p < |s.built| && s'.top == Some(p)
        && s'.built == s.built[p := s.built[p].(length := s.built[p].length + 1)]
        && (s'.f.seekValue <==> s.built[p].kind.KArray?)
  {
    hide Tree;
    var t := s.top.value;
    match s.built[t].parent
    case None =>
    case Some(p) =>
      UpdateKeepsTree(s.built, p, s.built[p].(length := s.built[p].length + 1));
  }

  lemma {:induction false} ScalarShape(s: State, kind: Kind, truth: bool, s': State) returns (mid: State)
    requires Rooted(s) && ContainerOrNone(TopKind(s)) && Scalar(true, s, kind, truth) == Go(s')
    ensures mid == s.(built := s.built + [Fresh(kind, s.top).(truth := truth)], top := Some(|s.built|))
    ensures Rooted(mid) && Complete(true, mid) == Go(s')
  {
    hide Complete, Tree;
    var r := NewValue(true, s, kind).st;
    NewValueShape(s, kind, r);
    var t := |s.built|;
    UpdateKeepsTree(r.built, t, r.built[t].(truth := truth));
    mid := s.(built := s.built + [Fresh(kind, s.top).(truth := truth)], top := Some(|s.built|));
    assert mid.built == r.built[t := r.built[t].(truth := truth)];
    assert mid.built == MarkTruth(r.built, t, truth);
    assert mid == r.(built := mid.built);
  }

  lemma {:induction false} CloseShape(s: State, s': State) returns (mid: State)
    requires Rooted(s) && s.top.Some? && CloseString(true, s) == Go(s')
    ensures var t := s.top.value; var n := s.built[t];
      && (n.kind.KString? || n.kind.KObject?)
      && (n.kind.KString? ==>
            && mid == s.(slen := 0, built := s.built[t := n.(length := s.slen)])
            && Rooted(mid) && Complete(true, mid) == Go(s'))
      && (n.kind.KObject? ==>
            && s' == s.(f := s.f.(seekValue := true, needColon := true), slen := 0,
                        built := s.built[t := n.(keyBytes := n.keyBytes + s.slen + 1)])
            && Rooted(s'))
  {
    hide Complete, Tree, Write;
    var t := s.top.value;
    var n := s.built[t];
    if n.kind.KString? {
      UpdateKeepsTree(s.built, t, n.(length := s.slen));
      mid := s.(slen := 0, built := s.built[t := n.(length := s.slen)]);
      assert n.(length := s.slen) == n.(length := s.slen, mem := n.mem);
    } else {
      UpdateKeepsTree(s.built, t, n.(keyBytes := n.keyBytes + s.slen + 1));
      mid := s;
    }
  }

  /** Every step of the first pass keeps the shape. */
  lemma {:induction false} StepWF(text: string, s: State, s': State)
    requires WF(s) && Step(true, text, s) == Go(s')
    ensures WF(s')
  {
    hide Decide, Complete, Tree, CloseString, Scalar, NewValue;
    DecideOk(text, s.i, s.f, s.slen, TopKind(s));
    match Decide(text, s.i, s.f, s.slen, TopKind(s))
    case Stay(f, i) =>
    case OpenKey(f, i) =>
    case Create(kind, f, i) => NewValueShape(s.(f := f, i := i, slen := 0), kind, s');
    case Literal(kind, truth, f, i) =>
      var mid := ScalarShape(s.(f := f, i := i), kind, truth, s');
      CompleteShape(mid, s');
    case Number(f) =>
      NewValueShape(s.(f := f), KInteger, NewValue(true, s.(f := f), KInteger).st);
    case Append(bytes, f, i) =>
    case Close(f, i) =>
      var mid := CloseShape(s.(f := f, i := i), s');
      if TopKind(s) == Some(KString) {
        CompleteShape(mid, s');
      }
    case Finish(f, i) => CompleteShape(s.(f := f, i := i), s');
    case ToDouble(f, i) =>
      UpdateKeepsTree(s.built, s.top.value, s.built[s.top.value].(kind := KDouble));
  }

  // --------------------------------- what the end of the first pass guarantees

  /** k is a proper ancestor of t. */
  ghost predicate Ancestor(built: seq<Node>, k: nat, t: nat)
    requires Tree(built) && t < |built|
    decreases t
  {
    assert ParentOk(built, t);
    match built[t].parent
    case None => false
    case Some(p) => p == k || Ancestor(built, k, p)
  }

  lemma {:induction false} AncestorSame(b1: seq<Node>, b2: seq<Node>, k: nat, t: nat)
    requires Tree(b1) && Tree(b2) && SameShape(b1, b2) && t < |b1|
    ensures Ancestor(b1, k, t) <==> Ancestor(b2, k, t)
    decreases t
  {
    assert ParentOk(b1, t) && ParentOk(b2, t);
    match b1[t].parent
    case None =>
    case Some(p) => AncestorSame(b1, b2, k, p);
  }

  lemma {:induction false} AncestorBelow(built: seq<Node>, k: nat, t: nat)
    requires Tree(built) && t < |built| && Ancestor(built, k, t)
    ensures k < t
    decreases t
  {
    assert ParentOk(built, t);
    var p := built[t].parent.value;
    if p != k {
      AncestorBelow(built, k, p);
    }
  }

  /** k is a container that the value on top is inside of. */
  ghost predicate Open(s: State, k: nat)
    requires Rooted(s)
  {
    !s.f.done && s.top.Some? && Ancestor(s.built, k, s.top.value)
  }

  /** How the measurements in final relate to node k of a state on the way there: the
    * containers still open get at least one more member. */
  ghost predicate KeepsNode(s: State, final: seq<Node>, k: nat)
    requires Rooted(s) && k < |s.built| <= |final|
  {
    var n, g := s.built[k], final[k];
    && g.parent == n.parent
    && (g.kind == n.kind || (s.top == Some(k) && !s.f.done && NumberKind(n.kind) && NumberKind(g.kind)))
    && (Container(n.kind) ==> g.length >= n.length + (if Open(s, k) then 1 else 0) && g.keyBytes >= n.keyBytes)
    && (n.kind.KString? && !(s.f.inString && s.top == Some(k)) ==> g.length == n.length)
  }

  /** ... and to the string, key or member under way. */
  predicate KeepsTop(s: State, final: seq<Node>)
    requires s.top.Some? ==> s.top.value < |s.built| <= |final|
  {
    s.top.Some? && !s.f.done ==>
      var n, g := s.built[s.top.value], final[s.top.value];
      && (s.f.inString && n.kind.KString? ==> g.length >= s.slen)
      && (s.f.inString && n.kind.KObject? ==> g.keyBytes >= n.keyBytes + s.slen + 1)
      && ((s.f.inString || s.f.seekValue) && n.kind.KObject? ==> g.length >= n.length + 1)
  }

  ghost predicate Promise(s: State, final: seq<Node>)
    requires Rooted(s)
  {
    && |s.built| <= |final|
    && (forall k: nat | k < |s.built| :: KeepsNode(s, final, k))
    && KeepsTop(s, final)
  }

  lemma {:induction false} PromiseAtEnd(s: State)
    requires Rooted(s) && s.f.done && !s.f.inString
    ensures Promise(s, s.built)
  {
  }

  lemma {:induction false} PromiseSameMode(s: State, s': State, final: seq<Node>)
    requires Rooted(s) && Rooted(s') && Promise(s', final)
    requires s'.built == s.built && s'.top == s.top && SameMode(s.f, s'.f) && s.slen <= s'.slen
    ensures Promise(s, final)
  {
    forall k: nat | k < |s.built| ensures KeepsNode(s, final, k) {
      assert KeepsNode(s', final, k);
    }
  }

  lemma {:induction false} PromiseOpenKey(s: State, s': State, final: seq<Node>)
    requires Rooted(s) && Rooted(s') && Promise(s', final)
    requires s'.built == s.built && s'.top == s.top && TopKind(s) == Some(KObject)
    requires Quiet(s.f) && SameMode(s'.f, s.f.(inString := true))
    ensures Promise(s, final)
  {
    forall k: nat | k < |s.built| ensures KeepsNode(s, final, k) {
      assert KeepsNode(s', final, k);
    }
  }

  lemma {:induction false} PromiseNew(s: State, n: Node, s': State, final: seq<Node>)
    requires Rooted(s) && Rooted(s') && Promise(s', final)
    requires s'.built == s.built + [n] && n.parent == s.top && s'.top == Some(|s.built|)
    requires ContainerOrNone(TopKind(s)) && !s.f.done && !s.f.inString && !s'.f.done
    ensures Promise(s, final)
  {
    var t := |s.built|;
    assert s'.built[t] == n;
    assert SameShape(s.built, s'.built);
    forall k: nat | k < |s.built| ensures KeepsNode(s, final, k) && (s.top == Some(k) ==> Open(s', k)) {
      assert KeepsNode(s', final, k);
      assert s'.built[k] == s.built[k];
      if s.top.Some? {
        AncestorSame(s.built, s'.built, k, s.top.value);
      }
    }
    assert s.top.Some? ==> KeepsNode(s', final, s.top.value) && Open(s', s.top.value);
  }

  lemma {:induction false} PromiseComplete(s: State, s': State, final: seq<Node>)
    requires Rooted(s) && s.top.Some? && Quiet(s.f) && Complete(true, s) == Go(s')
    requires WF(s') && Promise(s', final)
    ensures Promise(s, final)
  {
    hide Complete, ModeOk;
    CompleteShape(s, s');
    assert SameShape(s.built, s'.built);
    var t := s.top.value;
    assert ParentOk(s.built, t);
    forall k: nat | k < |s.built| ensures KeepsNode(s, final, k) {
      assert KeepsNode(s', final, k);
      match s.built[t].parent
      case None =>
        assert !Open(s, k);
      case Some(p) =>
        AncestorSame(s.built, s'.built, k, p);
        assert Open(s, k) ==> k == p || Open(s', k);
    }
  }

  lemma {:induction false} PromiseUpdateTop(s: State, n: Node, s': State, final: seq<Node>)
    requires Rooted(s) && Rooted(s') && s.top.Some? && Promise(s', final)
    requires n.parent == s.built[s.top.value].parent
    requires s'.built == s.built[s.top.value := n] && s'.top == s.top && !s.f.done && !s'.f.done && !s'.f.inString
    requires var m := s.built[s.top.value];
      || (m.kind.KString? && n == m.(length := s.slen) && s.f.inString && !s'.f.seekValue)
      || (m.kind.KObject? && n == m.(keyBytes := m.keyBytes + s.slen + 1) && s.f.inString && s'.f.seekValue)
      || (NumberKind(m.kind) && n == m.(kind := KDouble) && Quiet(s.f))
    ensures Promise(s, final)
  {
    hide Tree;
    var t := s.top.value;
    assert SameShape(s.built, s'.built);
    forall k: nat | k < |s.built| ensures KeepsNode(s, final, k) {
      assert KeepsNode(s', final, k);
      AncestorSame(s.built, s'.built, k, t);
      if k == t && Ancestor(s.built, t, t) {
        AncestorBelow(s.built, t, t);
      }
    }
    assert KeepsNode(s', final, t);
  }

  lemma {:induction false} PromiseQuiet(s: State, s': State, final: seq<Node>)
    requires Rooted(s) && Rooted(s') && Promise(s', final)
    requires s'.built == s.built && s'.top == s.top && Quiet(s'.f) && !s.f.done && !s.f.inString
    requires s.f.seekValue ==> TopKind(s) == Some(KArray)
    ensures Promise(s, final)
  {
    forall k: nat | k < |s.built| ensures KeepsNode(s, final, k) {
      assert KeepsNode(s', final, k);
    }
  }

  /** One step back along a completed first pass. */
  lemma {:induction false} PromiseBack(text: string, s: State, s': State, final: seq<Node>)
    requires WF(s) && Step(true, text, s) == Go(s') && WF(s') && Promise(s', final)
    ensures Promise(s, final)
  {
    hide Decide, Complete, Tree, CloseString, Scalar, NewValue, Promise, ModeOk;
    DecideOk(text, s.i, s.f, s.slen, TopKind(s));
    match Decide(text, s.i, s.f, s.slen, TopKind(s))
    case Stay(f, i) => PromiseSameMode(s, s', final);
    case OpenKey(f, i) => PromiseOpenKey(s, s', final);
    case Create(kind, f, i) =>
      NewValueShape(s.(f := f, i := i, slen := 0), kind, s');
      PromiseNew(s, Fresh(kind, s.top), s', final);
    case Literal(kind, truth, f, i) =>
      var mid := ScalarShape(s.(f := f, i := i), kind, truth, s');
      PromiseComplete(mid, s', final);
      PromiseNew(s, Fresh(kind, s.top).(truth := truth), mid, final);
    case Number(f) =>
      NewValueShape(s.(f := f), KInteger, NewValue(true, s.(f := f), KInteger).st);
      PromiseNew(s, Fresh(KInteger, s.top), s', final);
    case Append(bytes, f, i) => PromiseSameMode(s, s', final);
    case Close(f, i) =>
      var mid := CloseShape(s.(f := f, i := i), s');
      var n := s.built[s.top.value];
      if n.kind.KString? {
        PromiseComplete(mid, s', final);
        PromiseUpdateTop(s, n.(length := s.slen), mid, final);
      } else {
        PromiseUpdateTop(s, n.(keyBytes := n.keyBytes + s.slen + 1), s', final);
      }
    case Finish(f, i) =>
      PromiseComplete(s.(f := f, i := i), s', final);
      PromiseQuiet(s, s.(f := f, i := i), final);
    case ToDouble(f, i) => PromiseUpdateTop(s, s.built[s.top.value].(kind := KDouble), s', final);
  }

  // ------------------------------------------------- scanning and converting numbers

  predicate Numeric(c: char) {
    Digit(c) || c == 'e' || c == 'E' || c == '+' || c == '-' || c == '.'
  }

  /** The first pass is inside a number. */
  predicate Scanning(text: string, s: State) {
    && s.i <= |text| && NoNul(text)
    && Quiet(s.f) && s.top.Some? && s.top.value < |s.built| && NumberKind(s.built[s.top.value].kind)
  }

  /** Where the first pass stops scanning, just before it completes the number. */
  function ScanEnd(text: string, s: State): (r: State)
    requires Scanning(text, s)
    ensures s.i <= r.i <= |text|
    ensures forall k | s.i <= k < r.i :: Numeric(text[k])
    ensures |r.built| == |s.built| && NumberKind(r.built[s.top.value].kind)
    ensures r.built == s.built[s.top.value := s.built[s.top.value].(kind := r.built[s.top.value].kind)]
    ensures r.f == s.f.(exponent := false, gotSign := false)
    ensures r.top == s.top && r.slen == s.slen && r.pool == s.pool
    decreases |text| - s.i
  {
    var t := s.top.value;
    match DecideNumber(At(text, s.i), s.i, s.f, s.built[t].kind)
    case Stay(f, i) => ScanEnd(text, s.(f := f, i := i))
    case ToDouble(f, i) => ScanEnd(text, s.(f := f, i := i, built := s.built[t := s.built[t].(kind := KDouble)]))
    case Finish(f, i) => s.(f := f, i := i)
    case _ => s
  }

  lemma {:induction false} ScanRun(text: string, s: State)
    requires Scanning(text, s)
    ensures Complete(true, ScanEnd(text, s)).Go? ==> Complete(true, ScanEnd(text, s)).st.i <= |text|
    ensures Run(true, text, s) == RunOn(true, text, Complete(true, ScanEnd(text, s)))
    decreases |text| - s.i
  {
    hide Complete, Rank, NumberStart, Scalar, CloseString, StringAdd, NewValue, DecideObject, DecideSeek, DecideString;
    var t := s.top.value;
    CompleteCursor(true, ScanEnd(text, s));
    StepProgress(true, text, s);
    match DecideNumber(At(text, s.i), s.i, s.f, s.built[t].kind)
    case Stay(f, i) => ScanRun(text, s.(f := f, i := i));
    case ToDouble(f, i) => ScanRun(text, s.(f := f, i := i, built := s.built[t := s.built[t].(kind := KDouble)]));
    case Finish(f, i) =>
  }

  lemma {:induction false} ScanDigits(text: string, s: State, j: nat)
    requires Scanning(text, s) && s.i <= j <= |text|
    requires forall k | s.i <= k < j :: Digit(text[k])
    ensures ScanEnd(text, s) == ScanEnd(text, s.(i := j))
    decreases j - s.i
  {
    if s.i < j {
      ScanDigits(text, s.(i := s.i + 1), j);
      assert DecideNumber(At(text, s.i), s.i, s.f, s.built[s.top.value].kind) == Stay(s.f, s.i + 1);
    } else {
      assert s.(i := j) == s;
    }
  }

  /** A number has begun: the first pass stands behind its first character. */
  predicate NumberBegun(text: string, s: State, start: nat) {
    && Scanning(text, s) && s.i == start + 1 && start < |text|
    && (Digit(text[start]) || text[start] == '-')
    && !s.f.exponent && !s.f.gotSign && s.built[s.top.value].kind.KInteger?
  }

  lemma {:induction false} StrtolWithinScan(text: string, s: State, start: nat)
    requires NumberBegun(text, s, start)
    ensures StrtolEnd(text, start) <= ScanEnd(text, s).i
  {
    hide ScanEnd;
    var end := StrtolEnd(text, start);
    if end > start {
      ScanDigits(text, s, end);
    }
  }

  function AsDouble(s: State): State
    requires s.top.Some? && s.top.value < |s.built|
  {
    s.(built := s.built[s.top.value := s.built[s.top.value].(kind := KDouble)])
  }

  lemma {:induction false} ScanDot(text: string, s: State)
    requires Scanning(text, s) && At(text, s.i) == '.' && s.built[s.top.value].kind.KInteger?
    ensures s.i < |text| && ScanEnd(text, s) == ScanEnd(text, AsDouble(s.(i := s.i + 1)))
  {
  }

  lemma {:induction false} ScanExponent(text: string, s: State)
    requires Scanning(text, s) && (At(text, s.i) == 'e' || At(text, s.i) == 'E') && !s.f.exponent
    ensures s.i < |text|
    ensures ScanEnd(text, s) == ScanEnd(text, AsDouble(s.(i := s.i + 1, f := s.f.(exponent := true))))
  {
  }

  lemma {:induction false} ScanSign(text: string, s: State)
    requires Scanning(text, s) && (At(text, s.i) == '+' || At(text, s.i) == '-') && s.f.exponent && !s.f.gotSign
    ensures s.i < |text|
    ensures ScanEnd(text, s) == ScanEnd(text, s.(i := s.i + 1, f := s.f.(gotSign := true)))
  {
  }

  /** strtod never reads past what the first pass scanned. */
  lemma {:induction false} StrtodWithinScan(text: string, s: State, start: nat)
    requires NumberBegun(text, s, start)
    ensures StrtodEnd(text, start) <= ScanEnd(text, s).i
  {
    hide DigitsEnd, ScanEnd, AsDouble;
    var digits := if text[start] == '-' then start + 1 else start;
    var whole := DigitsEnd(text, digits);
    assert At(text, start) == text[start];
    ScanDigits(text, s, whole);
    var c := FractionWithinScan(text, s.(i := whole));
    if At(text, c.i) == 'e' || At(text, c.i) == 'E' {
      ExponentWithinScan(text, c);
    }
  }

  lemma {:induction false} FractionWithinScan(text: string, a: State) returns (c: State)
    requires Scanning(text, a) && a.built[a.top.value].kind.KInteger?
    ensures Scanning(text, c) && c.f == a.f && ScanEnd(text, a) == ScanEnd(text, c)
    ensures c.i == if At(text, a.i) == '.' then DigitsEnd(text, a.i + 1) else a.i
  {
    hide DigitsEnd, ScanEnd;
    c := a;
    if At(text, a.i) == '.' {
      ScanDot(text, a);
      var b := AsDouble(a.(i := a.i + 1));
      ScanDigits(text, b, DigitsEnd(text, b.i));
      c := b.(i := DigitsEnd(text, b.i));
    }
  }

  lemma {:induction false} ExponentWithinScan(text: string, c: State)
    requires Scanning(text, c) && !c.f.exponent && !c.f.gotSign
    requires At(text, c.i) == 'e' || At(text, c.i) == 'E'
    ensures
      var sign := if At(text, c.i + 1) == '+' || At(text, c.i + 1) == '-' then c.i + 2 else c.i + 1;
      sign <= |text| && DigitsEnd(text, sign) <= ScanEnd(text, c).i
  {
    hide DigitsEnd, ScanEnd;
    ScanExponent(text, c);
    var d := AsDouble(c.(i := c.i + 1, f := c.f.(exponent := true)));
    var e := d;
    if At(text, d.i) == '+' || At(text, d.i) == '-' {
      ScanSign(text, d);
      e := d.(i := d.i + 1, f := d.f.(gotSign := true));
    }
    ScanDigits(text, e, DigitsEnd(text, e.i));
  }

  // --------------------------------------------- the second pass follows the first

  /** A node as the first pass has it (n1), as the second has it at the same point (n2),
    * and as the first pass leaves it (g). */
  predicate NodesAgree(n1: Node, n2: Node, g: Node) {
    && n2.kind == n1.kind == g.kind && n2.parent == n1.parent && n2.length == n1.length
    && (n1.kind.KArray? ==> |n2.values| == g.length && n2.length <= |n2.values|)
    && (n1.kind.KObject? ==>
          && !BlockRefused(g) && n2.length <= |n2.values|
          && |n2.names| == |n2.values| == TableRoom(g.length)
          && |n2.mem| == KeyRoom(g) && n2.memPos == n1.keyBytes)
    && (n1.kind.KString? ==> |n2.mem| == g.length + 1)
  }

  /** The two passes stand at the same place with the same flags and corresponding nodes,
    * and the second has still to take exactly the nodes the first has still to create. */
  predicate InStep(s1: State, s2: State, final: seq<Node>) {
    && s2 == s1.(built := s2.built, pool := s2.pool)
    && |s2.built| == |s1.built| <= |final|
    && s2.pool == final[|s1.built|..]
    && forall k | 0 <= k < |s1.built| :: NodesAgree(s1.built[k], s2.built[k], final[k])
  }

  /** No object was measured whose table wraps to a size that is too small, and the root
    * was not measured to be refused its memory. */
  predicate Sound(final: seq<Node>) {
    forall k: nat | k < |final| :: TableFits(final[k]) || (k > 0 && BlockRefused(final[k]))
  }

  predicate AllFit(final: seq<Node>) {
    forall k: nat | k < |final| :: TableFits(final[k])
  }

  /** What the second pass may do where the first gets to s1: get there too, be refused
    * memory for a node below the root, or overrun a table that wrapped. */
  predicate Shadows(r: StepResult, s1: State, final: seq<Node>) {
    match r
    case Go(s2) => InStep(s1, s2, final)
    case Finished(_) => false
    case Rejected(left) => !AllFit(final) && (Sound(final) ==> Failed(false, left) == Refused(left))
    case Fault => !Sound(final)
  }

  lemma {:induction false} RoomWhenSound(n1: Node, n2: Node, final: seq<Node>, k: nat)
    requires k < |final| && NodesAgree(n1, n2, final[k]) && n1.kind.KObject? && Sound(final)
    ensures |n2.names| == |n2.values| == final[k].length && |n2.mem| == final[k].keyBytes
  {
    FittingTable(final[k]);
  }

  lemma {:induction false} InStepNotHollow(s1: State, s2: State, final: seq<Node>)
    requires InStep(s1, s2, final)
    ensures Failed(false, s2) == Refused(s2)
  {
    hide TableRoom, KeyRoom, BlockRefused;
    if s2.built != [] {
      assert NodesAgree(s1.built[0], s2.built[0], final[0]);
    }
  }

  lemma {:induction false} InStepTake(s1: State, s2: State, n: Node, kind: Kind, final: seq<Node>, t1: State)
    requires InStep(s1, s2, final) && |s1.built| < |final|
    requires n.kind == final[|s1.built|].kind && n.parent == final[|s1.built|].parent
    requires n.length == 0 && n.keyBytes == 0
    requires t1 == s1.(built := s1.built + [n], top := Some(|s1.built|))
    ensures Shadows(NewValue(false, s2, kind), t1, final)
    ensures !n.kind.KObject? ==> NewValue(false, s2, kind).Go?
  {
    var t := |s1.built|;
    assert s2.pool[0] == final[t] && s2.pool[1..] == final[t + 1..];
    if n.kind.KObject? && AllFit(final) {
      assert TableFits(final[t]);
      FittingTable(final[t]);
    }
  }

  lemma {:induction false} InStepComplete(s1: State, s2: State, s1': State, final: seq<Node>)
    requires InStep(s1, s2, final) && Rooted(s1) && s1.top.Some? && Quiet(s1.f)
    requires Complete(true, s1) == Go(s1') && Rooted(s1') && Promise(s1', final)
    ensures Shadows(Complete(false, s2), s1', final)
  {
    hide Tree, Ancestor, Sound, TableRoom, KeyRoom, BlockRefused;
    CompleteShape(s1, s1');
    var t := s1.top.value;
    assert NodesAgree(s1.built[t], s2.built[t], final[t]);
    match s1.built[t].parent
    case None =>
    case Some(p) =>
      assert NodesAgree(s1.built[p], s2.built[p], final[p]);
      assert KeepsNode(s1', final, p);
      if Sound(final) && s1.built[p].kind.KObject? {
        RoomWhenSound(s1.built[p], s2.built[p], final, p);
      }
  }

  lemma {:induction false} InStepMark(s1: State, s2: State, t: nat, truth: bool, final: seq<Node>)
    requires InStep(s1, s2, final) && t < |s1.built| && s1.built[t].truth == truth
    ensures InStep(s1, s2.(built := MarkTruth(s2.built, t, truth)), final)
  {
    assert NodesAgree(s1.built[t], s2.built[t], final[t]);
  }

  lemma {:induction false} InStepAppend(s1: State, s2: State, bytes: string, s1': State, final: seq<Node>)
    requires InStep(s1, s2, final) && Rooted(s1) && s1.top.Some? && s1.f.inString && !s1.f.done
    requires ModeOk(s1.f, TopKind(s1))
    requires StringAdd(true, s1, bytes) == Go(s1') && Promise(s1', final)
    ensures Shadows(StringAdd(false, s2, bytes), s1', final)
  {
    hide Tree, Write, Sound, TableRoom, KeyRoom, BlockRefused;
    var t := s1.top.value;
    assert NodesAgree(s1.built[t], s2.built[t], final[t]);
    if Sound(final) && s1.built[t].kind.KObject? {
      RoomWhenSound(s1.built[t], s2.built[t], final, t);
    }
  }

  lemma {:induction false} InStepCloseKey(s1: State, s2: State, s1': State, final: seq<Node>)
    requires InStep(s1, s2, final) && Rooted(s1) && TopKind(s1) == Some(KObject) && Quiet(s1.f)
    requires CloseString(true, s1) == Go(s1') && Rooted(s1') && Promise(s1', final)
    ensures Shadows(CloseString(false, s2), s1', final)
  {
    hide Tree, Write, Sound, TableRoom, KeyRoom, BlockRefused;
    var t := s1.top.value;
    var mid := CloseShape(s1, s1');
    assert NodesAgree(s1.built[t], s2.built[t], final[t]);
    assert KeepsNode(s1', final, t);
    if Sound(final) {
      RoomWhenSound(s1.built[t], s2.built[t], final, t);
    }
  }

  lemma {:induction false} InStepCloseString(s1: State, s2: State, mid: State, s1': State, final: seq<Node>)
    requires InStep(s1, s2, final) && Rooted(s1) && TopKind(s1) == Some(KString) && Quiet(s1.f)
    requires mid == s1.(slen := 0, built := s1.built[s1.top.value := s1.built[s1.top.value].(length := s1.slen)])
    requires Rooted(mid) && Complete(true, mid) == Go(s1')
    requires Rooted(s1') && Promise(s1', final) && Promise(mid, final)
    ensures Shadows(CloseString(false, s2), s1', final)
  {
    hide Tree, Write, Complete, Sound;
    var t := s1.top.value;
    var n := s2.built[t];
    assert NodesAgree(s1.built[t], n, final[t]);
    assert KeepsNode(mid, final, t);
    var m2 := s2.(slen := 0, built := s2.built[t := n.(length := s2.slen, mem := Write(n.mem, s2.slen, [NUL]))]);
    assert InStep(mid, m2, final);
    InStepComplete(mid, m2, s1', final);
    assert CloseString(false, s2) == Complete(false, m2);
  }

  /** One step of both passes, wherever no number starts. */
  lemma {:induction false} InStepForward(text: string, s1: State, s2: State, s1': State, final: seq<Node>)
    requires WF(s1) && InStep(s1, s2, final) && Step(true, text, s1) == Go(s1')
    requires WF(s1') && Promise(s1', final)
    requires !Decide(text, s1.i, s1.f, s1.slen, TopKind(s1)).Number?
    requires !Decide(text, s1.i, s1.f, s1.slen, TopKind(s1)).ToDouble?
    ensures Shadows(Step(false, text, s2), s1', final)
  {
    hide Decide, Complete, Tree, CloseString, NewValue, Promise, NodesAgree, StringAdd, MarkTruth, Sound;
    DecideOk(text, s1.i, s1.f, s1.slen, TopKind(s1));
    SameTopKind(s1, s2, final);
    match Decide(text, s1.i, s1.f, s1.slen, TopKind(s1))
    case Stay(f, i) =>
    case OpenKey(f, i) =>
    case Create(kind, f, i) =>
      NewValueShape(s1.(f := f, i := i, slen := 0), kind, s1');
      TakenNode(s1', final);
      InStepTake(s1.(f := f, i := i, slen := 0), s2.(f := f, i := i, slen := 0), Fresh(kind, s1.top), kind, final, s1');
    case Literal(kind, truth, f, i) =>
      var a1, a2 := s1.(f := f, i := i), s2.(f := f, i := i);
      var mid := ScalarShape(a1, kind, truth, s1');
      PromiseComplete(mid, s1', final);
      TakenNode(mid, final);
      InStepTake(a1, a2, Fresh(kind, s1.top).(truth := truth), kind, final, mid);
      InStepMark(mid, NewValue(false, a2, kind).st, |s1.built|, truth, final);
      var m2 := NewValue(false, a2, kind).st;
      InStepComplete(mid, m2.(built := MarkTruth(m2.built, |s1.built|, truth)), s1', final);
    case Append(bytes, f, i) =>
      InStepAppend(s1.(f := f, i := i), s2.(f := f, i := i), bytes, s1', final);
    case Close(f, i) =>
      var a1, a2 := s1.(f := f, i := i), s2.(f := f, i := i);
      if TopKind(s1) == Some(KString) {
        var mid := CloseShape(a1, s1');
        PromiseComplete(mid, s1', final);
        InStepCloseString(a1, a2, mid, s1', final);
      } else {
        InStepCloseKey(a1, a2, s1', final);
      }
    case Finish(f, i) =>
      InStepComplete(s1.(f := f, i := i), s2.(f := f, i := i), s1', final);
  }

  lemma {:induction false} SameTopKind(s1: State, s2: State, final: seq<Node>)
    requires InStep(s1, s2, final)
    ensures TopKind(s1) == TopKind(s2)
    ensures s1.top.Some? && s1.top.value < |s1.built| ==> TopKind(s1).value == final[s1.top.value].kind
  {
    assert s1.top.Some? && s1.top.value < |s1.built| ==>
      NodesAgree(s1.built[s1.top.value], s2.built[s1.top.value], final[s1.top.value]);
  }

  /** A node just created is the one the final list has at its place. */
  lemma {:induction false} TakenNode(s: State, final: seq<Node>)
    requires Rooted(s) && Promise(s, final) && s.top.Some? && s.top.value == |s.built| - 1
    requires !NumberKind(s.built[s.top.value].kind)
    ensures |s.built| <= |final|
    ensures final[s.top.value].kind == s.built[s.top.value].kind
    ensures final[s.top.value].parent == s.built[s.top.value].parent
  {
    assert KeepsNode(s, final, s.top.value);
  }

  // ------------------------------------------------------------- the theorems

  /** A completed first pass keeps its promises from any state on. */
  lemma {:induction false} FirstPassPromise(text: string, s: State)
    requires NoNul(text) && s.i <= |text| && WF(s) && Run(true, text, s).Accepted?
    ensures Promise(s, Run(true, text, s).nodes)
    decreases |text| - s.i, Rank(s)
  {
    hide Step, Rank, Promise;
    StepProgress(true, text, s);
    match Step(true, text, s)
    case Go(s') =>
      StepWF(text, s, s');
      FirstPassPromise(text, s');
      PromiseBack(text, s, s', Run(true, text, s).nodes);
    case Finished(nodes) =>
      EndsDone(text, s);
      PromiseAtEnd(s);
  }

  lemma {:induction false} EndsDone(text: string, s: State)
    requires WF(s) && Step(true, text, s).Finished?
    ensures s.f.done && !s.f.inString && Step(true, text, s).nodes == s.built
  {
    hide Decide, Complete, CloseString, Scalar, NewValue;
    DecideOk(text, s.i, s.f, s.slen, TopKind(s));
    OnlyEndFinishes(text, s);
  }

  /** When strtol or strtod stops short of what was scanned, the next step rejects. */
  lemma {:induction false} RejectsLeftover(text: string, s: State)
    requires s.i < |text| && NoNul(text) && Numeric(text[s.i])
    requires s.f.needComma && !s.f.inString
    requires s.f.done || s.f.seekValue || TopKind(s) == Some(KObject)
    ensures Step(false, text, s) == Rejected(s) && Run(false, text, s) == Failed(false, s)
  {
    hide Complete, CloseString, Scalar, NewValue, NumberStart, Rank;
    StepProgress(false, text, s);
  }

  /** After a value the machine wants a comma, in whatever surrounds the value. */
  lemma {:induction false} CompleteWantsComma(s: State, s': State)
    requires Rooted(s) && s.top.Some? && Quiet(s.f) && Complete(true, s) == Go(s')
    ensures s'.f.needComma && !s'.f.inString
    ensures s'.f.done || s'.f.seekValue || TopKind(s') == Some(KObject)
  {
    CompleteShape(s, s');
    assert ParentOk(s.built, s.top.value);
  }

  /** Completing a value does not look at the cursor. */
  lemma {:induction false} CompleteElsewhere(s: State, s': State, j: nat)
    requires Complete(true, s) == Go(s')
    ensures Complete(true, s.(i := j)) == Go(s'.(i := j))
  {
  }

  lemma {:induction false} PromiseElsewhere(s: State, j: nat, final: seq<Node>)
    requires Rooted(s) && Promise(s, final)
    ensures Rooted(s.(i := j)) && Promise(s.(i := j), final)
  {
    PromiseSameMode(s.(i := j), s, final);
  }

  /** The first pass through a whole number: begin, scan, complete. */
  lemma {:induction false} FirstPassNumber(text: string, s1: State, f: Flags) returns (begun: State, scanned: State,
          s1': State)
    requires NoNul(text) && s1.i <= |text| && WF(s1) && Run(true, text, s1).Accepted?
    requires Decide(text, s1.i, s1.f, s1.slen, TopKind(s1)) == Number(f)
    ensures begun == s1.(f := f, i := s1.i + 1, built := s1.built + [Fresh(KInteger, s1.top)], top := Some(|s1.built|))
    ensures NumberBegun(text, begun, s1.i) && Rooted(begun) && scanned == ScanEnd(text, begun) && Rooted(scanned)
    ensures Complete(true, scanned) == Go(s1') && s1'.i == scanned.i && WF(s1')
    ensures s1'.i > s1.i && Run(true, text, s1') == Run(true, text, s1)
    ensures f == s1.f.(seekValue := false, exponent := false, gotSign := false)
  {
    hide Complete, Tree, ScanEnd, Rank;
    DecideOk(text, s1.i, s1.f, s1.slen, TopKind(s1));
    NumberChosen(text, s1, f);
    StepProgress(true, text, s1);
    var a := s1.(f := f);
    begun := NewValue(true, a, KInteger).st.(i := s1.i + 1);
    NewValueShape(a, KInteger, NewValue(true, a, KInteger).st);
    assert Step(true, text, s1) == Go(begun);
    scanned := ScanEnd(text, begun);
    var t := begun.top.value;
    UpdateKeepsTree(begun.built, t, begun.built[t].(kind := scanned.built[t].kind));
    ScanRun(text, begun);
    CompleteCursor(true, scanned);
    CompleteGoesOn(true, scanned);
    s1' := Complete(true, scanned).st;
    CompleteShape(scanned, s1');
  }

  lemma {:induction false} NumberChosen(text: string, s1: State, f: Flags)
    requires ModeOk(s1.f, TopKind(s1))
    requires Decide(text, s1.i, s1.f, s1.slen, TopKind(s1)) == Number(f)
    ensures s1.i < |text| && (Digit(text[s1.i]) || text[s1.i] == '-')
    ensures f == s1.f.(seekValue := false, exponent := false, gotSign := false)
  {
    hide Decode, DecideValue, Blank, Digit, DecideString, DecideObject, DecideNumber;
    DecideOk(text, s1.i, s1.f, s1.slen, TopKind(s1));
    if s1.i < |text| {
      ValueNumber(text, s1.i, s1.f.(seekValue := false));
    }
  }

  lemma {:induction false} ValueNumber(text: string, i: nat, f: Flags)
    requires i < |text|
    ensures DecideValue(text, i, f).Number? ==>
      (Digit(text[i]) || text[i] == '-') && DecideValue(text, i, f).f == f.(exponent := false, gotSign := false)
  {
    hide Follows;
  }

  lemma {:induction false} ScannedKind(scanned: State, s1': State, t: nat, final: seq<Node>)
    requires Rooted(scanned) && scanned.top == Some(t) && Quiet(scanned.f)
    requires Complete(true, scanned) == Go(s1') && WF(s1') && Promise(s1', final)
    ensures t < |scanned.built| <= |final|
    ensures final[t].kind == scanned.built[t].kind && final[t].parent == scanned.built[t].parent
  {
    CompleteShape(scanned, s1');
    assert ParentOk(scanned.built, t);
    assert KeepsNode(s1', final, t);
  }

  lemma {:induction false} InStepConvert(text: string, s1: State, s2: State, t: nat, final: seq<Node>)
    requires InStep(s1, s2, final) && t < |s1.built| && s1.i < |text|
    ensures InStep(s1.(i := Convert(text, s2, t).i), Convert(text, s2, t), final)
  {
    hide StrtolEnd, StrtodEnd, StrtolValue;
    assert NodesAgree(s1.built[t], s2.built[t], final[t]);
  }

  /** Where strtod or strtol stops, by what the first pass scanned. */
  function Converted(text: string, start: nat, scanned: State): nat
    requires start < |text| && scanned.top.Some? && scanned.top.value < |scanned.built|
  {
    if scanned.built[scanned.top.value].kind.KDouble? then StrtodEnd(text, start) else StrtolEnd(text, start)
  }

  /** The second pass through the same number: it arrives where strtol or strtod stops. */
  lemma {:induction false} SecondPassNumber(text: string, s1: State, s2: State, f: Flags, begun: State,
          scanned: State, s1': State,
                         final: seq<Node>) returns (s2': State)
    requires NoNul(text) && s1.i <= |text| && WF(s1) && InStep(s1, s2, final)
    requires Decide(text, s1.i, s1.f, s1.slen, TopKind(s1)) == Number(f)
    requires begun == s1.(f := f, i := s1.i + 1, built := s1.built + [Fresh(KInteger, s1.top)], top := Some(|s1.built|))
    requires NumberBegun(text, begun, s1.i) && scanned == ScanEnd(text, begun) && Rooted(scanned)
    requires Complete(true, scanned) == Go(s1') && s1'.i == scanned.i && WF(s1') && Promise(s1', final)
    ensures Step(false, text, s2) != Go(s2') ==>
      Shadows(Step(false, text, s2), s1', final) && !Step(false, text, s2).Go?
    ensures Step(false, text, s2) == Go(s2') ==> s2'.i <= scanned.i && InStep(s1'.(i := s2'.i), s2', final)
    ensures Step(false, text, s2) == Go(s2') ==> s2'.i == Converted(text, s1.i, scanned)
  {
    hide Complete, Tree, ScanEnd, Decide, StrtolEnd, StrtodEnd, StrtolValue, NodesAgree, Promise, Sound;
    SameTopKind(s1, s2, final);
    var t := |s1.built|;
    PromiseComplete(scanned, s1', final);
    ScannedKind(scanned, s1', t, final);
    var n := scanned.built[t];
    assert scanned.built == s1.built + [n];
    var a2 := s2.(f := f);
    var taken1 := s1.(f := f, built := s1.built + [n], top := Some(t));
    InStepTake(s1.(f := f), a2, n, KInteger, final, taken1);
    var taken2 := NewValue(false, a2, KInteger).st;
    StrtolWithinScan(text, begun, s1.i);
    StrtodWithinScan(text, begun, s1.i);
    var conv := Convert(text, taken2, t);
    InStepConvert(text, taken1, taken2, t, final);
    var at1 := scanned.(i := conv.i);
    assert at1 == taken1.(i := conv.i);
    CompleteElsewhere(scanned, s1', conv.i);
    PromiseElsewhere(s1', conv.i, final);
    InStepComplete(at1, conv, s1'.(i := conv.i), final);
    CompleteCursor(false, conv);
    s2' := if Complete(false, conv).Go? then Complete(false, conv).st else conv;
  }

  /** What an accepted second pass leaves: every node taken, every count at its measure. */
  predicate Filled(nodes: seq<Node>, measured: seq<Node>) {
    && |nodes| == |measured|
    && forall k | 0 <= k < |nodes| ::
         && nodes[k].kind == measured[k].kind
         && nodes[k].parent == measured[k].parent
         && nodes[k].length == measured[k].length
         && (nodes[k].kind.KObject? ==>
               |nodes[k].names| == |nodes[k].values| == nodes[k].length && |nodes[k].mem| == nodes[k].memPos)
         && (nodes[k].kind.KArray? ==> |nodes[k].values| == nodes[k].length)
         && (nodes[k].kind.KString? ==> |nodes[k].mem| == nodes[k].length + 1)
  }

  lemma {:induction false} InStepAtEnd(s1: State, s2: State)
    requires InStep(s1, s2, s1.built)
    ensures Filled(s2.built, s1.built) && AllFit(s1.built)
  {
    hide TableRoom, KeyRoom, BlockRefused;
    forall k: nat | k < |s1.built|
      ensures NodesAgree(s1.built[k], s2.built[k], s1.built[k]) && TableFits(s1.built[k])
      ensures s1.built[k].kind.KObject? ==>
        TableRoom(s1.built[k].length) == s1.built[k].length && KeyRoom(s1.built[k]) == s1.built[k].keyBytes
    {
      TableRoomBound(s1.built[k].length);
      if s1.built[k].kind.KObject? {
        FittingTable(s1.built[k]);
      }
    }
  }

  /** From corresponding states, a second pass over a text whose first pass completes
    * reads and writes only what the first pass measured, unless a table wrapped; and if
    * one did, it does not accept. */
  lemma {:induction false} SecondPassFollows(text: string, s1: State, s2: State, final: seq<Node>)
    requires NoNul(text) && s1.i <= |text| && WF(s1) && InStep(s1, s2, final)
    requires Run(true, text, s1) == Accepted(final)
    requires !(Quiet(s1.f) && TopKind(s1).Some? && NumberKind(TopKind(s1).value))
    ensures Sound(final) ==> Run(false, text, s2) != Crash
    ensures Run(false, text, s2).Accepted? ==> Filled(Run(false, text, s2).nodes, final) && AllFit(final)
    decreases |text| - s1.i, Rank(s1), 1
  {
    hide Step, Rank, Promise, Decide, InStep, Filled, WF, Sound, AllFit;
    InStepSame(s1, s2, final);
    StepProgress(true, text, s1);
    StepProgress(false, text, s2);
    var act := Decide(text, s1.i, s1.f, s1.slen, TopKind(s1));
    if act.Number? {
      SecondPassNumberCase(text, s1, s2, act.f, final);
    } else {
      match Step(true, text, s1)
      case Go(s1') =>
        StepWF(text, s1, s1');
        FirstPassPromise(text, s1');
        NotToDouble(text, s1);
        InStepForward(text, s1, s2, s1', final);
        NotScanning(text, s1, s1');
        if Step(false, text, s2).Go? {
          SecondPassFollows(text, s1', Step(false, text, s2).st, final);
        }
      case Finished(nodes) =>
        EndsTogether(text, s1, s2, final);
    }
  }

  lemma {:induction false} InStepSame(s1: State, s2: State, final: seq<Node>)
    requires InStep(s1, s2, final)
    ensures s1.i == s2.i
  {
  }

  lemma {:induction false} NotToDouble(text: string, s: State)
    requires WF(s) && !(Quiet(s.f) && TopKind(s).Some? && NumberKind(TopKind(s).value))
    ensures !Decide(text, s.i, s.f, s.slen, TopKind(s)).ToDouble?
  {
    hide Decide;
    DecideOk(text, s.i, s.f, s.slen, TopKind(s));
  }

  lemma {:induction false} EndsTogether(text: string, s1: State, s2: State, final: seq<Node>)
    requires WF(s1) && InStep(s1, s2, final) && Step(true, text, s1) == Finished(final)
    ensures Step(false, text, s2).Finished? && Filled(Step(false, text, s2).nodes, final) && AllFit(final)
  {
    hide Decide;
    EndsDone(text, s1);
    SameTopKind(s1, s2, final);
    DecideOk(text, s1.i, s1.f, s1.slen, TopKind(s1));
    OnlyEndFinishes(text, s1);
    InStepAtEnd(s1, s2);
  }

  lemma {:induction false} OnlyEndFinishes(text: string, s: State)
    requires Step(true, text, s).Finished?
    ensures Decide(text, s.i, s.f, s.slen, TopKind(s)) == End
  {
    hide Decide;
  }

  /** Outside numbers the first pass does not end a step inside one. */
  lemma {:induction false} NotScanning(text: string, s: State, s': State)
    requires WF(s) && Step(true, text, s) == Go(s') && WF(s')
    requires !(Quiet(s.f) && TopKind(s).Some? && NumberKind(TopKind(s).value))
    requires !Decide(text, s.i, s.f, s.slen, TopKind(s)).Number?
    ensures !(Quiet(s'.f) && TopKind(s').Some? && NumberKind(TopKind(s').value))
  {
    hide Decide, Complete, Tree, CloseString, Scalar, NewValue;
    DecideOk(text, s.i, s.f, s.slen, TopKind(s));
    match Decide(text, s.i, s.f, s.slen, TopKind(s))
    case Create(kind, f, i) => NewValueShape(s.(f := f, i := i, slen := 0), kind, s');
    case Literal(kind, truth, f, i) =>
      var mid := ScalarShape(s.(f := f, i := i), kind, truth, s');
      NotScanningAfter(mid, s');
    case Close(f, i) =>
      var mid := CloseShape(s.(f := f, i := i), s');
      if TopKind(s) == Some(KString) {
        NotScanningAfter(mid, s');
      }
    case Finish(f, i) => NotScanningAfter(s.(f := f, i := i), s');
    case _ =>
  }

  lemma {:induction false} NotScanningAfter(s: State, s': State)
    requires Rooted(s) && s.top.Some? && Quiet(s.f) && Complete(true, s) == Go(s')
    ensures !(Quiet(s'.f) && TopKind(s').Some? && NumberKind(TopKind(s').value))
  {
    CompleteShape(s, s');
    assert ParentOk(s.built, s.top.value);
  }

  lemma {:induction false} SecondPassNumberCase(text: string, s1: State, s2: State, f: Flags, final: seq<Node>)
    requires NoNul(text) && s1.i <= |text| && WF(s1) && InStep(s1, s2, final)
    requires Run(true, text, s1) == Accepted(final)
    requires Decide(text, s1.i, s1.f, s1.slen, TopKind(s1)) == Number(f)
    ensures s2.i == s1.i && (Sound(final) ==> Run(false, text, s2) != Crash)
    ensures Run(false, text, s2).Accepted? ==> Filled(Run(false, text, s2).nodes, final) && AllFit(final)
    decreases |text| - s1.i, Rank(s1), 0
  {
    hide Step, Promise, Decide, InStep, Filled, WF, Complete, ScanEnd, Rank, Sound, AllFit;
    InStepSame(s1, s2, final);
    var begun, scanned, s1' := FirstPassNumber(text, s1, f);
    FirstPassPromise(text, s1');
    StepProgress(false, text, s2);
    var s2' := SecondPassNumber(text, s1, s2, f, begun, scanned, s1', final);
    ScannedTop(text, begun, scanned);
    if Step(false, text, s2) != Go(s2') {
    } else if s2'.i < scanned.i {
      CompleteWantsComma(scanned, s1');
      LeftoverIsNumeric(text, s1, begun, scanned, s2'.i);
      InStepKeeps(s1', s2', final);
      RejectsLeftover(text, s2');
      InStepNotHollow(s1'.(i := s2'.i), s2', final);
    } else {
      assert s1'.(i := s2'.i) == s1';
      NotScanningAfter(scanned, s1');
      SecondPassFollows(text, s1', s2', final);
    }
  }

  lemma {:induction false} ScannedTop(text: string, begun: State, scanned: State)
    requires Scanning(text, begun) && scanned == ScanEnd(text, begun)
    ensures scanned.top.Some? && Quiet(scanned.f)
  {
  }

  lemma {:induction false} LeftoverIsNumeric(text: string, s1: State, begun: State, scanned: State, j: nat)
    requires NumberBegun(text, begun, s1.i) && scanned == ScanEnd(text, begun)
    requires s1.i <= j < scanned.i
    ensures j < |text| && Numeric(text[j])
  {
  }

  lemma {:induction false} InStepKeeps(s1: State, s2: State, final: seq<Node>)
    requires InStep(s1.(i := s2.i), s2, final)
    ensures s2.f == s1.f && TopKind(s2) == TopKind(s1)
  {
    SameTopKind(s1.(i := s2.i), s2, final);
  }

  /** json_parse_ex writes and reads within bounds: whenever the first pass completes and
    * has measured no table that wraps to a smaller size, and no root that is refused, the
    * second never faults.  If it accepts, no table wrapped at all and it has filled exactly
    * what was measured. */
  lemma {:induction false} SecondPassIsSafe(text: string)
    requires NoNul(text) && Pass1(text).Accepted?
    ensures Sound(Pass1(text).nodes) ==> Parse(text) != Crash
    ensures Parse(text).Accepted? ==> AllFit(Pass1(text).nodes) && Filled(Parse(text).nodes, Pass1(text).nodes)
  {
    hide Step, Rank, Filled, Sound, AllFit;
    SecondPassFollows(text, Start([]), Start(Pass1(text).nodes), Pass1(text).nodes);
  }

  // ------------------------------------------------------ a root refused its memory

  /** Up to the first node both passes skip blanks; a root that is refused leaves a table
    * that json_value_free then reads through a null pointer. */
  lemma {:induction false} RootRefused(text: string, s1: State, s2: State, final: seq<Node>)
    requires NoNul(text) && s1.i <= |text| && WF(s1) && InStep(s1, s2, final) && s1.built == []
    requires Run(true, text, s1) == Accepted(final) && final != [] && BlockRefused(final[0])
    ensures s2.i == s1.i && Run(false, text, s2) == Crash
    decreases |text| - s1.i, Rank(s1)
  {
    hide Step, Rank, Promise, InStep, WF, TableBytes, Decide;
    InStepSame(s1, s2, final);
    StepProgress(true, text, s1);
    StepProgress(false, text, s2);
    match Step(true, text, s1)
    case Go(s1') =>
      StepWF(text, s1, s1');
      FirstPassPromise(text, s1');
      if s1'.built == [] {
        NotToDouble(text, s1) by { NoTopNoNumber(s1); }
        NothingCreated(text, s1, s1');
        InStepForward(text, s1, s2, s1', final);
        NothingTaken(text, s1, s2, final);
        RootRefused(text, s1', Step(false, text, s2).st, final);
      } else {
        CreatesRoot(text, s1, s1', final);
        TakesRefusedRoot(text, s1, s2, final);
      }
    case Finished(_) => NeedsValue(text, s1);
  }

  lemma {:induction false} NoTopNoNumber(s: State)
    requires WF(s) && s.built == []
    ensures TopKind(s).None?
  {
  }

  lemma {:induction false} NothingCreated(text: string, s: State, s': State)
    requires WF(s) && s.built == [] && Step(true, text, s) == Go(s') && s'.built == []
    ensures Decide(text, s.i, s.f, s.slen, TopKind(s)).Stay?
  {
    hide Decide, Complete, Tree, CloseString, Scalar, NewValue;
    DecideOk(text, s.i, s.f, s.slen, TopKind(s));
    var a := Decide(text, s.i, s.f, s.slen, TopKind(s));
    if a.Create? {
      NewValueShape(s.(f := a.f, i := a.i, slen := 0), a.kind, s');
    } else if a.Literal? {
      var mid := ScalarShape(s.(f := a.f, i := a.i), a.kind, a.truth, s');
      CompleteShape(mid, s');
    } else if a.Number? {
      NewValueShape(s.(f := a.f), KInteger, NewValue(true, s.(f := a.f), KInteger).st);
    }
  }

  lemma {:induction false} NothingTaken(text: string, s1: State, s2: State, final: seq<Node>)
    requires WF(s1) && InStep(s1, s2, final) && Decide(text, s1.i, s1.f, s1.slen, TopKind(s1)).Stay?
    ensures Step(false, text, s2).Go?
  {
    hide Decide;
    SameTopKind(s1, s2, final);
  }

  lemma {:induction false} CreatesRoot(text: string, s: State, s': State, final: seq<Node>)
    requires WF(s) && s.built == [] && Step(true, text, s) == Go(s') && s'.built != [] && WF(s')
    requires Promise(s', final) && final[0].kind.KObject?
    ensures Decide(text, s.i, s.f, s.slen, TopKind(s)).Create?
  {
    hide Decide, Complete, Tree, CloseString, Scalar, NewValue;
    DecideOk(text, s.i, s.f, s.slen, TopKind(s));
    assert KeepsNode(s', final, 0);
    var a := Decide(text, s.i, s.f, s.slen, TopKind(s));
    if a.Literal? {
      var mid := ScalarShape(s.(f := a.f, i := a.i), a.kind, a.truth, s');
      CompleteShape(mid, s');
    } else if a.Number? {
      NewValueShape(s.(f := a.f), KInteger, NewValue(true, s.(f := a.f), KInteger).st);
    }
  }

  lemma {:induction false} TakesRefusedRoot(text: string, s1: State, s2: State, final: seq<Node>)
    requires NoNul(text) && s2.i <= |text| && InStep(s1, s2, final) && s1.built == []
    requires final != [] && BlockRefused(final[0])
    requires Decide(text, s1.i, s1.f, s1.slen, TopKind(s1)).Create?
    ensures Run(false, text, s2) == Crash
  {
    hide Decide, Rank, TableBytes;
    SameTopKind(s1, s2, final);
    StepProgress(false, text, s2);
    RefusedIsWide(final[0]);
  }

  lemma {:induction false} RefusedIsWide(n: Node)
    requires BlockRefused(n)
    ensures n.length >= MAX_MEMBERS && Hollow(Bare(n))
  {
  }

  lemma {:induction false} NeedsValue(text: string, s: State)
    requires WF(s) && s.built == []
    ensures !Step(true, text, s).Finished?
  {
    hide Decide;
    DecideOk(text, s.i, s.f, s.slen, TopKind(s));
    if Step(true, text, s).Finished? {
      OnlyEndFinishes(text, s);
    }
  }

  /** Where the root is refused its memory, the clean-up after the second pass faults. */
  lemma {:induction false} RefusedRootFaults(text: string)
    requires NoNul(text) && Pass1(text).Accepted?
    ensures Pass1(text).nodes != []
    ensures BlockRefused(Pass1(text).nodes[0]) ==> Parse(text) == Crash
  {
    hide Step, Rank, Sound, AllFit, BlockRefused, Run;
    NodesExist(text, Start([]));
    if BlockRefused(Pass1(text).nodes[0]) {
      RootRefused(text, Start([]), Start(Pass1(text).nodes), Pass1(text).nodes);
    }
  }

  lemma {:induction false} NodesExist(text: string, s: State)
    requires NoNul(text) && s.i <= |text| && WF(s) && Run(true, text, s).Accepted?
    ensures Run(true, text, s).nodes != []
    decreases |text| - s.i, Rank(s)
  {
    hide Step, Rank, WF;
    StepProgress(true, text, s);
    match Step(true, text, s)
    case Go(s') =>
      StepWF(text, s, s');
      NodesExist(text, s');
    case Finished(_) =>
      EndsDone(text, s);
      DoneHasTop(s);
  }

  lemma {:induction false} DoneHasTop(s: State)
    requires WF(s) && s.f.done
    ensures s.built != []
  {
  }

  // --------------------------------------------------- when the first pass faults

  function SkipBlanks(text: string, i: nat): (j: nat)
    requires i <= |text|
    ensures i <= j <= |text|
    decreases |text| - i
  {
    if i < |text| && Blank(text[i]) then SkipBlanks(text, i + 1) else i
  }

  /** The one place where the parser follows a null pointer: a ']' before any value. */
  predicate StrayBracket(text: string) {
    At(text, SkipBlanks(text, 0)) == ']'
  }

  lemma {:induction false} StepCrashIff(text: string, s: State)
    requires WF(s)
    ensures Step(true, text, s) == Fault <==>
      s.top.None? && At(text, s.i) == ']' && !s.f.done && !s.f.inString && s.f.seekValue
  {
    hide Decide, Tree;
    DecideOk(text, s.i, s.f, s.slen, TopKind(s));
    if s.top.Some? {
      NoFaultOnTop(s);
    }
    BracketIsNull(text, s.i, s.f, s.slen, TopKind(s));
    NumberInText(text, s.i, s.f, s.slen, TopKind(s));
    var a := Decide(text, s.i, s.f, s.slen, TopKind(s));
    if a.Literal? {
      NoFaultOnScalar(s.(f := a.f, i := a.i), a.kind, a.truth);
    }
  }

  lemma {:induction false} NoFaultOnTop(s: State)
    requires Rooted(s) && s.top.Some?
    ensures forall f, i :: Complete(true, s.(f := f, i := i)) != Fault
    ensures (TopKind(s) == Some(KString) || TopKind(s) == Some(KObject)) ==>
      forall f, i :: CloseString(true, s.(f := f, i := i)) != Fault
  {
    assert ParentOk(s.built, s.top.value);
  }

  lemma {:induction false} NoFaultOnScalar(s: State, kind: Kind, truth: bool)
    requires Rooted(s) && ContainerOrNone(TopKind(s))
    ensures Scalar(true, s, kind, truth) != Fault
  {
  }

  lemma {:induction false} BracketIsNull(text: string, i: nat, f: Flags, slen: nat, top: Option<Kind>)
    ensures top.None? && At(text, i) == ']' && !f.done && !f.inString && f.seekValue ==>
      Decide(text, i, f, slen, top) == NullTop
  {
  }

  lemma {:induction false} NumberInText(text: string, i: nat, f: Flags, slen: nat, top: Option<Kind>)
    ensures Decide(text, i, f, slen, top).Number? ==> i < |text|
  {
    hide Decode, Follows;
  }

  /** Once there is a top value the first pass cannot fault any more. */
  lemma {:induction false} NoCrashWithTop(text: string, s: State)
    requires NoNul(text) && s.i <= |text| && WF(s) && s.top.Some?
    ensures Run(true, text, s) != Crash
    decreases |text| - s.i, Rank(s)
  {
    hide Step, Rank;
    StepProgress(true, text, s);
    StepCrashIff(text, s);
    match Step(true, text, s)
    case Go(s') =>
      StepWF(text, s, s');
      BuiltGrows(text, s, s');
      NoCrashWithTop(text, s');
    case _ =>
  }

  lemma {:induction false} BuiltGrows(text: string, s: State, s': State)
    requires WF(s) && Step(true, text, s) == Go(s') && WF(s') && s.top.Some?
    ensures s'.top.Some?
  {
    hide Decide, Complete, CloseString, Scalar, NewValue, Tree;
    DecideOk(text, s.i, s.f, s.slen, TopKind(s));
    match Decide(text, s.i, s.f, s.slen, TopKind(s))
    case Create(kind, f, i) => NewValueShape(s.(f := f, i := i, slen := 0), kind, s');
    case Literal(kind, truth, f, i) =>
      var mid := ScalarShape(s.(f := f, i := i), kind, truth, s');
      CompleteShape(mid, s');
    case Number(f) => NewValueShape(s.(f := f), KInteger, NewValue(true, s.(f := f), KInteger).st);
    case Close(f, i) =>
      var mid := CloseShape(s.(f := f, i := i), s');
      if TopKind(s) == Some(KString) {
        CompleteShape(mid, s');
      }
    case Finish(f, i) => CompleteShape(s.(f := f, i := i), s');
    case _ =>
  }

  lemma {:induction false} StartRuns(text: string, i: nat)
    requires NoNul(text) && i <= |text|
    ensures Run(true, text, Start([]).(i := i)) == Crash <==> At(text, SkipBlanks(text, i)) == ']'
    decreases |text| - i
  {
    hide Step, Rank;
    var s := Start([]).(i := i);
    StepProgress(true, text, s);
    StepCrashIff(text, s);
    if i < |text| && Blank(text[i]) {
      SkipsBlank(text, s);
      StartRuns(text, i + 1);
    } else {
      match Step(true, text, s)
      case Go(s') =>
        StepWF(text, s, s');
        FirstStepBuilds(text, s, s');
        NoCrashWithTop(text, s');
      case _ =>
    }
  }

  lemma {:induction false} SkipsBlank(text: string, s: State)
    requires s == Start([]).(i := s.i) && s.i < |text| && Blank(text[s.i])
    ensures Step(true, text, s) == Go(s.(i := s.i + 1))
  {
  }

  lemma {:induction false} FirstStepBuilds(text: string, s: State, s': State)
    requires s == Start([]).(i := s.i) && s.i <= |text| && NoNul(text)
    requires s.i < |text| ==> !Blank(text[s.i])
    requires Step(true, text, s) == Go(s')
    ensures s'.top.Some?
  {
    hide Follows;
  }

  /** The first pass faults on exactly the texts that begin, after blanks, with ']'; and so
    * does the parser, on texts whose tables do not wrap. */
  lemma {:induction false} FirstPassCrashIff(text: string)
    requires NoNul(text)
    ensures Pass1(text) == Crash <==> StrayBracket(text)
    ensures (Pass1(text).Accepted? ==> Sound(Pass1(text).nodes)) ==> (Parse(text) == Crash <==> StrayBracket(text))
  {
    hide Step, Rank, Sound, StrayBracket, Run;
    StartRuns(text, 0);
    StrayIs(text);
    if Pass1(text).Accepted? {
      SecondPassIsSafe(text);
    }
  }

  lemma {:induction false} StrayIs(text: string)
    ensures StrayBracket(text) <==> At(text, SkipBlanks(text, 0)) == ']'
  {
  }

  // ----------------------------------------------- texts too short for a wide object

  /** So far there are no more members than characters; a number being scanned has taken a
    * character and is not counted yet. */
  predicate Sparse(s: State) {
    && (forall k: nat | k < |s.built| && Container(s.built[k].kind) :: s.built[k].length <= s.i)
    && (Quiet(s.f) && TopKind(s).Some? && NumberKind(TopKind(s).value) ==>
          forall k: nat | k < |s.built| && Container(s.built[k].kind) :: s.built[k].length < s.i)
  }

  lemma {:induction false} CompleteSparse(s: State, s': State)
    requires Rooted(s) && s.top.Some? && Quiet(s.f) && Complete(true, s) == Go(s')
    requires forall k: nat | k < |s.built| && Container(s.built[k].kind) :: s.built[k].length < s.i
    ensures Sparse(s')
  {
    hide Tree;
    CompleteShape(s, s');
  }

  lemma {:induction false} StepSparse(text: string, s: State, s': State)
    requires NoNul(text) && s.i <= |text| && WF(s) && Sparse(s) && Step(true, text, s) == Go(s')
    ensures Sparse(s')
  {
    hide Decide, Complete, Tree, CloseString, Scalar, NewValue;
    DecideOk(text, s.i, s.f, s.slen, TopKind(s));
    DecideProgress(text, s.i, s.f, s.slen, TopKind(s));
    match Decide(text, s.i, s.f, s.slen, TopKind(s))
    case Stay(f, i) =>
    case OpenKey(f, i) =>
    case Create(kind, f, i) => NewValueShape(s.(f := f, i := i, slen := 0), kind, s');
    case Literal(kind, truth, f, i) =>
      var mid := ScalarShape(s.(f := f, i := i), kind, truth, s');
      CompleteSparse(mid, s');
    case Number(f) => NewValueShape(s.(f := f), KInteger, NewValue(true, s.(f := f), KInteger).st);
    case Append(bytes, f, i) =>
    case Close(f, i) =>
      var mid := CloseShape(s.(f := f, i := i), s');
      if TopKind(s) == Some(KString) {
        CompleteSparse(mid, s');
      }
    case Finish(f, i) => CompleteSparse(s.(f := f, i := i), s');
    case ToDouble(f, i) =>
  }

  lemma {:induction false} MeasuresSparse(text: string, s: State)
    requires NoNul(text) && s.i <= |text| && WF(s) && Sparse(s) && Run(true, text, s).Accepted?
    ensures var nodes := Run(true, text, s).nodes;
      forall k: nat | k < |nodes| && Container(nodes[k].kind) :: nodes[k].length <= |text|
    decreases |text| - s.i, Rank(s)
  {
    hide Step, Rank, WF;
    StepProgress(true, text, s);
    match Step(true, text, s)
    case Go(s') =>
      StepWF(text, s, s');
      StepSparse(text, s, s');
      MeasuresSparse(text, s');
    case Finished(nodes) => EndsDone(text, s);
  }

  /** On texts under 2^27 bytes the parser faults exactly when there is a stray bracket. */
  lemma {:induction false} ShortTextCrashIff(text: string)
    requires NoNul(text) && |text| < MAX_MEMBERS
    ensures Parse(text) == Crash <==> StrayBracket(text)
  {
    hide Step, Rank, StrayBracket, Run;
    FirstPassCrashIff(text);
    if Pass1(text).Accepted? {
      MeasuresSparse(text, Start([]));
    }
  }
}
