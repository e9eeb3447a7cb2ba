/** The pointers of an accepted parse.
  *
  * Parents are set by the first pass, child pointers by the second.  ParsedIsOwned says
  * that they agree: whatever text the parser accepts, the nodes form one tree in which
  * every node but the first is pointed to exactly once, by its parent.  RefusedIsLinked
  * says what a rejected second pass leaves: the same, but for the values still open.
  */
module JsonLinks {
  import opened Options
  import opened JsonMachine
  import T = JsonTwoPass

  /** The child pointers of node k that are set so far. */
  predicate LinksOk(built: seq<Node>, k: nat)
    requires k < |built|
  {
    Container(built[k].kind) ==>
      && built[k].length <= |built[k].values|
      && (forall q: nat | q < built[k].length :: LinkOk(built, k, q))
      && Apart(built[k])
  }

  predicate LinkOk(built: seq<Node>, k: nat, q: nat)
    requires k < |built| && q < |built[k].values|
  {
    match built[k].values[q]
    case None => false
    case Some(c) => k < c < |built| && built[c].parent == Some(k)
  }

  predicate Apart(n: Node)
    requires n.length <= |n.values|
  {
    forall q: nat, r: nat | q < r < n.length :: n.values[q] != n.values[r]
  }

  /** The parent of k points to k. */
  predicate IsLinked(built: seq<Node>, k: nat)
    requires k < |built|
  {
    built[k].parent.Some? && built[k].parent.value < |built| && PointsTo(built[built[k].parent.value], k)
  }

  predicate PointsTo(n: Node, k: nat) {
    exists q: nat :: q < n.length && q < |n.values| && n.values[q] == Some(k)
  }

  /** k is the value on top or one it is inside of. */
  ghost predicate OnPath(built: seq<Node>, top: Option<nat>, k: nat)
    requires T.Tree(built) && (top.Some? ==> top.value < |built|)
  {
    top.Some? && (k == top.value || T.Ancestor(built, k, top.value))
  }

  /** Every node but the root is either complete and linked, or on the path and not. */
  ghost predicate NodeOk(built: seq<Node>, top: Option<nat>, k: nat)
    requires T.Tree(built) && (top.Some? ==> top.value < |built|) && k < |built|
  {
    && LinksOk(built, k)
    && (k == 0 ==> built[k].parent.None?)
    && (k > 0 ==> built[k].parent.Some? && (OnPath(built, top, k) <==> !IsLinked(built, k)))
  }

  ghost predicate Linked(s: State) {
    && T.Rooted(s)
    && (s.f.done ==> s.top.Some? && s.built[s.top.value].parent.None?)
    && forall k: nat | k < |s.built| :: NodeOk(s.built, s.top, k)
  }

  // ------------------------------------------------------------ what steps preserve

  /** The same pointers, whatever else changed in the nodes. */
  predicate SamePointers(a: seq<Node>, b: seq<Node>) {
    && |a| == |b|
    && forall k: nat | k < |a| ::
         && a[k].parent == b[k].parent && (Container(a[k].kind) <==> Container(b[k].kind))
         && (Container(a[k].kind) ==> a[k].length == b[k].length && a[k].values == b[k].values)
  }

  lemma {:induction false} SamePointersTree(a: seq<Node>, b: seq<Node>)
    requires T.Tree(a) && SamePointers(a, b)
    ensures T.Tree(b)
  {
    forall k: nat | k < |b| ensures T.ParentOk(b, k) {
      assert T.ParentOk(a, k);
    }
  }

  lemma {:induction false} SamePointersNode(a: seq<Node>, b: seq<Node>, top: Option<nat>, k: nat)
    requires T.Tree(a) && T.Tree(b) && SamePointers(a, b) && (top.Some? ==> top.value < |a|) && k < |a|
    requires NodeOk(a, top, k)
    ensures NodeOk(b, top, k)
  {
    if top.Some? {
      T.AncestorSame(a, b, k, top.value);
    }
    assert T.ParentOk(a, k);
    assert LinksOk(b, k) by {
      if Container(a[k].kind) {
        forall q: nat | q < b[k].length ensures LinkOk(b, k, q) {
          assert LinkOk(a, k, q);
        }
      }
    }
  }

  lemma {:induction false} KeepsLinked(s: State, s': State)
    requires Linked(s) && SamePointers(s.built, s'.built) && s'.top == s.top && s'.f.done == s.f.done
    ensures Linked(s')
  {
    hide NodeOk, T.Tree;
    SamePointersTree(s.built, s'.built);
    forall k: nat | k < |s'.built| ensures NodeOk(s'.built, s'.top, k) {
      SamePointersNode(s.built, s'.built, s.top, k);
    }
  }

  /** A new node under the top. */
  lemma {:induction false} AppendsLinked(s: State, n: Node, s': State)
    requires Linked(s) && T.ContainerOrNone(TopKind(s)) && !s.f.done
    requires n.parent == s.top && n.length == 0
    requires s'.built == s.built + [n] && s'.top == Some(|s.built|) && !s'.f.done
    ensures Linked(s')
  {
    hide NodeOk;
    var t := |s.built|;
    forall k: nat | k < |s'.built| ensures T.ParentOk(s'.built, k) {
      assert k < t ==> T.ParentOk(s.built, k);
    }
    forall k: nat | k < |s'.built| ensures NodeOk(s'.built, s'.top, k) {
      if k < t {
        assert NodeOk(s.built, s.top, k);
        OldNodeOk(s.built, n, s.top, k);
      } else {
        NewNodeOk(s.built, n, s.top);
      }
    }
  }

  lemma {:induction false} OldNodeOk(built: seq<Node>, n: Node, top: Option<nat>, k: nat)
    requires T.Tree(built) && T.Tree(built + [n]) && k < |built| && (top.Some? ==> top.value < |built|)
    requires n.parent == top && NodeOk(built, top, k)
    ensures NodeOk(built + [n], Some(|built|), k)
  {
    var b := built + [n];
    assert b[|built|] == n;
    assert T.ParentOk(built, k);
    if top.Some? {
      T.AncestorSame(built, b, k, top.value);
    }
    assert OnPath(b, Some(|built|), k) <==> OnPath(built, top, k);
    assert IsLinked(b, k) <==> IsLinked(built, k);
    if Container(built[k].kind) {
      forall q: nat | q < b[k].length ensures LinkOk(b, k, q) {
        assert LinkOk(built, k, q);
      }
    }
  }

  lemma {:induction false} NewNodeOk(built: seq<Node>, n: Node, top: Option<nat>)
    requires T.Tree(built) && T.Tree(built + [n])
    requires (top.None? <==> built == []) && (top.Some? ==> top.value < |built|)
    requires n.parent == top && n.length == 0
    requires forall k: nat | k < |built| :: NodeOk(built, top, k)
    ensures NodeOk(built + [n], Some(|built|), |built|)
  {
    var b := built + [n];
    assert b[|built|] == n;
    if top.Some? && IsLinked(b, |built|) {
      var p := top.value;
      var q: nat :| q < b[p].length && q < |b[p].values| && b[p].values[q] == Some(|built|);
      assert NodeOk(built, top, p);
      assert T.ParentOk(b, |built|);
      assert LinkOk(built, p, q);
    }
  }

  /** The value on top is linked to its parent, which becomes the top. */
  lemma {:induction false} CompletesLinked(s: State, s': State)
    requires Linked(s) && s.top.Some? && !s.f.done
    requires Complete(false, s) == Go(s') || Complete(false, s) == Rejected(s')
    ensures Linked(s')
  {
    hide NodeOk, T.Tree;
    var t := s.top.value;
    match s.built[t].parent
    case None =>
      assert s'.built == s.built && s'.top == s.top;
    case Some(p) =>
      var n := s.built[p];
      var n' := n.(length := n.length + 1, values := n.values[n.length := Some(t)]);
      T.UpdateKeepsTree(s.built, p, n');
      assert NodeOk(s.built, s.top, t) && NodeOk(s.built, s.top, p);
      forall k: nat | k < |s'.built| ensures NodeOk(s'.built, s'.top, k) {
        assert NodeOk(s.built, s.top, k);
        if k == p {
          ParentStillOk(s.built, t, p, n');
        } else if k == t {
          ChildNowOk(s.built, t, p, n');
        } else {
          OtherStillOk(s.built, t, p, n', k);
        }
      }
  }

  ghost predicate Linking(built: seq<Node>, t: nat, p: nat, n': Node) {
    && T.Tree(built) && t < |built| && p < |built|
    && built[t].parent == Some(p) && Container(built[p].kind)
    && built[p].length < |built[p].values|
    && n' == built[p].(length := built[p].length + 1, values := built[p].values[built[p].length := Some(t)])
    && T.Tree(built[p := n'])
  }

  /** Leaving t, the path is one shorter. */
  lemma {:induction false} PathShrinks(built: seq<Node>, t: nat, p: nat, n': Node, k: nat)
    requires Linking(built, t, p, n') && k < |built|
    ensures OnPath(built[p := n'], Some(p), k) <==> OnPath(built, Some(t), k) && k != t
  {
    var b := built[p := n'];
    assert T.ParentOk(built, t);
    T.AncestorSame(built, b, k, p);
    if k == t && T.Ancestor(built, t, p) {
      T.AncestorBelow(built, t, p);
    }
  }

  lemma {:induction false} OtherLinks(built: seq<Node>, t: nat, p: nat, n': Node, k: nat)
    requires Linking(built, t, p, n') && k < |built| && k != t
    ensures IsLinked(built[p := n'], k) <==> IsLinked(built, k)
  {
    var b := built[p := n'];
    if built[k].parent == Some(p) {
      if PointsTo(built[p], k) {
        var q: nat :| q < built[p].length && q < |built[p].values| && built[p].values[q] == Some(k);
        assert n'.values[q] == Some(k);
      }
      if PointsTo(n', k) {
        var q: nat :| q < n'.length && q < |n'.values| && n'.values[q] == Some(k);
        assert q < built[p].length && built[p].values[q] == Some(k);
      }
    }
  }

  lemma {:induction false} OtherStillOk(built: seq<Node>, t: nat, p: nat, n': Node, k: nat)
    requires Linking(built, t, p, n') && k < |built| && k != t && k != p && NodeOk(built, Some(t), k)
    ensures NodeOk(built[p := n'], Some(p), k)
  {
    hide OnPath, IsLinked;
    PathShrinks(built, t, p, n', k);
    OtherLinks(built, t, p, n', k);
    var b := built[p := n'];
    if Container(b[k].kind) {
      forall q: nat | q < b[k].length ensures LinkOk(b, k, q) {
        assert LinkOk(built, k, q);
      }
    }
  }

  lemma {:induction false} ChildNowOk(built: seq<Node>, t: nat, p: nat, n': Node)
    requires Linking(built, t, p, n') && NodeOk(built, Some(t), t)
    ensures NodeOk(built[p := n'], Some(p), t)
  {
    hide OnPath;
    PathShrinks(built, t, p, n', t);
    assert T.ParentOk(built, t);
    var b := built[p := n'];
    assert n'.values[built[p].length] == Some(t);
    assert IsLinked(b, t);
    if Container(b[t].kind) {
      forall q: nat | q < b[t].length ensures LinkOk(b, t, q) {
        assert LinkOk(built, t, q);
      }
    }
  }

  lemma {:induction false} ParentStillOk(built: seq<Node>, t: nat, p: nat, n': Node)
    requires Linking(built, t, p, n') && NodeOk(built, Some(t), t) && NodeOk(built, Some(t), p)
    ensures NodeOk(built[p := n'], Some(p), p)
  {
    assert T.ParentOk(built, t);
    PathShrinks(built, t, p, n', p);
    OtherLinks(built, t, p, n', p);
    var b := built[p := n'];
    var last := built[p].length;
    forall q: nat | q < n'.length ensures LinkOk(b, p, q) {
      assert q < last ==> LinkOk(built, p, q);
    }
    assert OnPath(built, Some(t), t) && !PointsTo(built[p], t);
    forall q: nat, r: nat | q < r < n'.length ensures n'.values[q] != n'.values[r] {
      if r == last {
        assert built[p].values[q] != Some(t);
      }
    }
  }

  // --------------------------------------------------------------------- one step

  /** Acts that create a node. */
  predicate Creates(a: Act) {
    a.Create? || a.Literal? || a.Number?
  }

  lemma {:induction false} TakesLinked(s: State, kind: Kind)
    requires Linked(s) && T.ContainerOrNone(TopKind(s)) && !s.f.done
    requires s.pool != [] && s.pool[0].parent == s.top
    ensures NewValue(false, s, kind).Go? ==>
      var m := NewValue(false, s, kind).st;
      Linked(m) && m.top == Some(|s.built|) && m.f == s.f
  {
    if NewValue(false, s, kind).Go? {
      AppendsLinked(s, Prepare(s.pool[0]), NewValue(false, s, kind).st);
    }
  }

  lemma {:induction false} ConvertsLinked(text: string, s: State, t: nat)
    requires s.i < |text| && Linked(s)
    ensures Linked(Convert(text, s, t)) && Convert(text, s, t).top == s.top && Convert(text, s, t).f == s.f
  {
    hide StrtolEnd, StrtodEnd, StrtolValue, Linked;
    KeepsLinked(s, Convert(text, s, t));
  }

  lemma {:induction false} MarksLinked(s: State, t: nat, truth: bool)
    requires Linked(s)
    ensures Linked(s.(built := MarkTruth(s.built, t, truth)))
  {
    hide Linked;
    KeepsLinked(s, s.(built := MarkTruth(s.built, t, truth)));
  }

  lemma {:induction false} AddsLinked(s: State, bytes: string, s': State)
    requires Linked(s) && StringAdd(false, s, bytes) == Go(s')
    ensures Linked(s')
  {
    hide Linked, Write;
    KeepsLinked(s, s');
  }

  lemma {:induction false} ClosesLinked(s: State, s': State)
    requires Linked(s) && s.top.Some? && !s.f.done
    requires CloseString(false, s) == Go(s') || CloseString(false, s) == Rejected(s')
    ensures Linked(s')
  {
    hide Linked, Write, Complete;
    var t := s.top.value;
    assert t < |s.built|;
    var n := s.built[t];
    if n.kind.KString? {
      var m := s.(slen := 0, built := s.built[t := n.(length := s.slen, mem := Write(n.mem, s.slen, [NUL]))]);
      KeepsLinked(s, m);
      assert CloseString(false, s) == Complete(false, m);
      CompletesLinked(m, s');
    } else {
      KeepsLinked(s, s');
    }
  }

  /** Every step of the second pass that takes the right node keeps the links. */
  lemma {:induction false} StepLinks(text: string, s: State, s': State)
    requires Linked(s) && T.ModeOk(s.f, TopKind(s)) && Step(false, text, s) == Go(s')
    requires Creates(Decide(text, s.i, s.f, s.slen, TopKind(s))) ==> s.pool != [] && s.pool[0].parent == s.top
    ensures Linked(s')
  {
    hide Decide, NewValue, Complete, CloseString, StringAdd, MarkTruth, Linked, Convert;
    T.DecideOk(text, s.i, s.f, s.slen, TopKind(s));
    match Decide(text, s.i, s.f, s.slen, TopKind(s))
    case Stay(f, i) => KeepsLinked(s, s');
    case OpenKey(f, i) => KeepsLinked(s, s');
    case Create(kind, f, i) =>
      KeepsLinked(s, s.(f := f, i := i, slen := 0));
      TakesLinked(s.(f := f, i := i, slen := 0), kind);
    case Literal(kind, truth, f, i) =>
      var a := s.(f := f, i := i);
      KeepsLinked(s, a);
      TakesLinked(a, kind);
      var m := NewValue(false, a, kind).st;
      MarksLinked(m, |s.built|, truth);
      CompletesLinked(m.(built := MarkTruth(m.built, |s.built|, truth)), s');
    case Number(f) =>
      var a := s.(f := f);
      KeepsLinked(s, a);
      TakesLinked(a, KInteger);
      var m := NewValue(false, a, KInteger).st;
      TakesCursor(a, KInteger);
      ConvertsLinked(text, m, |s.built|);
      CompletesLinked(Convert(text, m, |s.built|), s');
    case Append(bytes, f, i) =>
      KeepsLinked(s, s.(f := f, i := i));
      AddsLinked(s.(f := f, i := i), bytes, s');
    case Close(f, i) =>
      KeepsLinked(s, s.(f := f, i := i));
      ClosesLinked(s.(f := f, i := i), s');
    case Finish(f, i) =>
      KeepsLinked(s, s.(f := f, i := i));
      CompletesLinked(s.(f := f, i := i), s');
    case ToDouble(f, i) => KeepsLinked(s, s');
  }

  /** The state without a node whose memory was refused, which nothing points to. */
  function WithoutBare(left: State): State {
    var n := |left.built| - 1;
    if n >= 0 && Hollow(left.built[n]) then left.(built := left.built[..n], top := left.built[n].parent) else left
  }

  lemma {:induction false} LinkedIsWhole(s: State)
    requires Linked(s)
    ensures WithoutBare(s) == s
    ensures forall k: nat | k < |s.built| :: !Hollow(s.built[k])
  {
    forall k: nat | k < |s.built| ensures !Hollow(s.built[k]) {
      assert NodeOk(s.built, s.top, k);
    }
  }

  /** A node is refused its memory. */
  lemma {:induction false} RefusesLinked(s: State, kind: Kind, left: State)
    requires Linked(s) && s.pool != [] && s.pool[0].parent == s.top && NewValue(false, s, kind) == Rejected(left)
    ensures Linked(WithoutBare(left)) && left.pool == s.pool[1..] && |left.built| == |s.built| + 1
  {
    hide Linked, BlockRefused;
    T.RefusedIsWide(s.pool[0]);
    assert left.built[..|s.built|] == s.built;
    KeepsLinked(s, WithoutBare(left));
  }

  /** Where the second pass rejects, what it leaves is linked all the same. */
  lemma {:induction false} RejectLinks(text: string, s: State, left: State)
    requires Linked(s) && T.ModeOk(s.f, TopKind(s)) && Step(false, text, s) == Rejected(left)
    requires Creates(Decide(text, s.i, s.f, s.slen, TopKind(s))) ==> s.pool != [] && s.pool[0].parent == s.top
    ensures Linked(WithoutBare(left))
    ensures |s.built| <= |left.built| <= |s.built| + |s.pool| && left.pool == s.pool[|left.built| - |s.built|..]
  {
    hide Decide, NewValue, Complete, CloseString, StringAdd, MarkTruth, Linked, Convert, WithoutBare;
    T.DecideOk(text, s.i, s.f, s.slen, TopKind(s));
    match Decide(text, s.i, s.f, s.slen, TopKind(s))
    case Create(kind, f, i) =>
      KeepsLinked(s, s.(f := f, i := i, slen := 0));
      RefusesLinked(s.(f := f, i := i, slen := 0), kind, left);
    case Literal(kind, truth, f, i) =>
      var a := s.(f := f, i := i);
      KeepsLinked(s, a);
      if NewValue(false, a, kind).Go? {
        TakesLinked(a, kind);
        var m := NewValue(false, a, kind).st;
        TakesOne(a, kind);
        MarksLinked(m, |s.built|, truth);
        CompletesLinked(m.(built := MarkTruth(m.built, |s.built|, truth)), left);
        CompleteKeepsPool(m.(built := MarkTruth(m.built, |s.built|, truth)), left);
        MarkKeepsCount(m.built, |s.built|, truth);
        LinkedIsWhole(left);
      } else {
        RefusesLinked(a, kind, left);
      }
    case Number(f) =>
      var a := s.(f := f);
      KeepsLinked(s, a);
      if NewValue(false, a, KInteger).Go? {
        TakesLinked(a, KInteger);
        var m := NewValue(false, a, KInteger).st;
        TakesCursor(a, KInteger);
        TakesOne(a, KInteger);
        ConvertsLinked(text, m, |s.built|);
        ConvertKeepsPool(text, m, |s.built|);
        CompletesLinked(Convert(text, m, |s.built|), left);
        CompleteKeepsPool(Convert(text, m, |s.built|), left);
        LinkedIsWhole(left);
      } else {
        RefusesLinked(a, KInteger, left);
      }
    case Append(bytes, f, i) => AddNeverRejects(s.(f := f, i := i), bytes);
    case Close(f, i) =>
      KeepsLinked(s, s.(f := f, i := i));
      ClosesLinked(s.(f := f, i := i), left);
      CloseKeepsPool(s.(f := f, i := i), left);
      LinkedIsWhole(left);
    case Finish(f, i) =>
      KeepsLinked(s, s.(f := f, i := i));
      CompletesLinked(s.(f := f, i := i), left);
      CompleteKeepsPool(s.(f := f, i := i), left);
      LinkedIsWhole(left);
    case _ => LinkedIsWhole(left);
  }

  lemma {:induction false} TakesOne(s: State, kind: Kind)
    requires NewValue(false, s, kind).Go?
    ensures s.pool != []
    ensures var m := NewValue(false, s, kind).st; |m.built| == |s.built| + 1 && m.pool == s.pool[1..]
  {
  }

  lemma {:induction false} AddNeverRejects(s: State, bytes: string)
    ensures !StringAdd(false, s, bytes).Rejected?
  {
  }

  lemma {:induction false} MarkKeepsCount(built: seq<Node>, t: nat, truth: bool)
    ensures |MarkTruth(built, t, truth)| == |built|
  {
  }

  lemma {:induction false} ConvertKeepsPool(text: string, s: State, t: nat)
    requires s.i < |text|
    ensures Convert(text, s, t).pool == s.pool && |Convert(text, s, t).built| == |s.built|
  {
  }

  lemma {:induction false} CompleteKeepsPool(s: State, left: State)
    requires Complete(false, s) == Rejected(left)
    ensures left.pool == s.pool && |left.built| == |s.built|
  {
  }

  lemma {:induction false} CloseKeepsPool(s: State, left: State)
    requires CloseString(false, s) == Rejected(left)
    ensures left.pool == s.pool && |left.built| == |s.built|
  {
    hide Complete;
    var t := s.top.value;
    var n := s.built[t];
    if n.kind.KString? {
      var mem := Write(n.mem, s.slen, [NUL]);
      CompleteKeepsPool(s.(slen := 0, built := s.built[t := n.(length := s.slen, mem := mem)]), left);
    }
  }

  lemma {:induction false} TakesCursor(s: State, kind: Kind)
    ensures NewValue(false, s, kind).Go? ==> NewValue(false, s, kind).st.i == s.i
  {
  }

  /** What the first pass creates lies under its top, and so does what it leaves there. */
  lemma {:induction false} CreatesUnderTop(text: string, s1: State, s1': State, final: seq<Node>)
    requires T.WF(s1) && Step(true, text, s1) == Go(s1') && T.WF(s1') && T.Promise(s1', final)
    requires Creates(Decide(text, s1.i, s1.f, s1.slen, TopKind(s1)))
    ensures |s1.built| < |final| && final[|s1.built|].parent == s1.top
  {
    hide Decide, NewValue, Complete, T.Tree, Scalar;
    T.DecideOk(text, s1.i, s1.f, s1.slen, TopKind(s1));
    var t := |s1.built|;
    match Decide(text, s1.i, s1.f, s1.slen, TopKind(s1))
    case Create(kind, f, i) =>
      T.NewValueShape(s1.(f := f, i := i, slen := 0), kind, s1');
      assert T.KeepsNode(s1', final, t);
    case Literal(kind, truth, f, i) =>
      var mid := T.ScalarShape(s1.(f := f, i := i), kind, truth, s1');
      T.CompleteShape(mid, s1');
      assert T.KeepsNode(s1', final, t);
    case Number(f) =>
      T.NewValueShape(s1.(f := f), KInteger, NewValue(true, s1.(f := f), KInteger).st);
      assert T.KeepsNode(s1', final, t);
  }

  // -------------------------------------------------------------------- whole runs

  /** A tree that json_value_free can take apart: every node but the first is pointed to,
    * once, by its parent. */
  predicate Owned(nodes: seq<Node>) {
    && nodes != [] && nodes[0].parent.None? && T.Tree(nodes)
    && (forall k: nat | k < |nodes| :: OwnedNode(nodes, k))
    && (forall k: nat | 0 < k < |nodes| :: IsLinked(nodes, k))
  }

  predicate OwnedNode(nodes: seq<Node>, k: nat)
    requires k < |nodes|
  {
    LinksOk(nodes, k) && (Container(nodes[k].kind) ==> nodes[k].length == |nodes[k].values|)
  }

  /** A partial tree that json_value_free can take apart: pointers agree with parents, but
    * not every node need be pointed to. */
  predicate Held(nodes: seq<Node>) {
    && nodes != [] && nodes[0].parent.None? && T.Tree(nodes)
    && (forall k: nat | k < |nodes| :: LinksOk(nodes, k))
    && (forall k: nat | 0 < k < |nodes| :: nodes[k].parent.Some?)
  }

  lemma {:induction false} OwnedIsHeld(nodes: seq<Node>)
    requires Owned(nodes)
    ensures Held(nodes)
  {
    forall k: nat | k < |nodes| ensures LinksOk(nodes, k) && (k > 0 ==> nodes[k].parent.Some?) {
      assert OwnedNode(nodes, k) && (k > 0 ==> IsLinked(nodes, k));
    }
  }

  lemma {:induction false} LinkedIsHeld(s: State)
    requires Linked(s) && s.built != []
    ensures Held(s.built)
  {
    forall k: nat | k < |s.built| ensures LinksOk(s.built, k) && (k > 0 ==> s.built[k].parent.Some?) {
      assert NodeOk(s.built, s.top, k);
    }
    assert NodeOk(s.built, s.top, 0);
  }

  /** What a rejected second pass leaves: linked nodes, perhaps one that was refused, and
    * the rest of the chain. */
  ghost predicate LeftOk(left: State, final: seq<Node>) {
    Linked(WithoutBare(left)) && |left.built| <= |final| && left.pool == final[|left.built|..]
  }

  lemma {:induction false} LinkedAtEnd(s: State, measured: seq<Node>)
    requires Linked(s) && s.f.done && T.Filled(s.built, measured)
    ensures Owned(s.built)
  {
    assert NodeOk(s.built, s.top, s.top.value);
    forall k: nat | k < |s.built| ensures OwnedNode(s.built, k) && (k > 0 ==> IsLinked(s.built, k)) {
      assert NodeOk(s.built, s.top, k);
    }
    assert NodeOk(s.built, s.top, 0);
  }

  lemma {:induction false} EndsLinked(text: string, s1: State, s2: State, final: seq<Node>)
    requires T.WF(s1) && T.InStep(s1, s2, final) && Step(true, text, s1) == Finished(final) && Linked(s2)
    ensures Step(false, text, s2).Finished? && Owned(Step(false, text, s2).nodes)
  {
    hide Decide, Linked, T.Filled, Owned, T.NodesAgree;
    T.EndsTogether(text, s1, s2, final);
    T.EndsDone(text, s1);
    T.SameTopKind(s1, s2, final);
    T.OnlyEndFinishes(text, s1);
    LinkedAtEnd(s2, final);
  }

  /** One step of each pass from corresponding states. */
  lemma {:induction false} BothStep(text: string, s1: State, s2: State, s1': State, s2': State, final: seq<Node>)
    requires T.WF(s1) && T.InStep(s1, s2, final) && Linked(s2)
    requires Step(true, text, s1) == Go(s1') && T.WF(s1') && T.Promise(s1', final)
    requires Step(false, text, s2) == Go(s2')
    ensures Linked(s2')
  {
    hide Decide, Linked, T.Promise, T.NodesAgree, Step, T.Rooted;
    T.SameTopKind(s1, s2, final);
    if Creates(Decide(text, s1.i, s1.f, s1.slen, TopKind(s1))) {
      CreatesUnderTop(text, s1, s1', final);
      assert s2.pool[0] == final[|s1.built|];
    }
    StepLinks(text, s2, s2');
  }

  /** The second pass rejects where the first goes on. */
  lemma {:induction false} RejectedAfter(text: string, s1: State, s2: State, s1': State, left: State, final: seq<Node>)
    requires T.WF(s1) && T.InStep(s1, s2, final) && Linked(s2)
    requires Step(true, text, s1) == Go(s1') && T.WF(s1') && T.Promise(s1', final)
    requires Step(false, text, s2) == Rejected(left)
    ensures LeftOk(left, final)
  {
    hide Decide, Linked, T.Promise, T.NodesAgree, Step, T.Rooted, WithoutBare;
    T.SameTopKind(s1, s2, final);
    if Creates(Decide(text, s1.i, s1.f, s1.slen, TopKind(s1))) {
      CreatesUnderTop(text, s1, s1', final);
      assert s2.pool[0] == final[|s1.built|];
    }
    RejectLinks(text, s2, left);
  }

  lemma {:induction false} RejectedAt(s1: State, s2: State, final: seq<Node>)
    requires T.InStep(s1, s2, final) && Linked(s2)
    ensures LeftOk(s2, final)
  {
    hide Linked, T.NodesAgree, WithoutBare;
    LinkedIsWhole(s2);
  }

  /** The second pass links as it follows the first. */
  lemma {:induction false} SecondPassLinks(text: string, s1: State, s2: State, final: seq<Node>)
    requires NoNul(text) && s1.i <= |text| && T.WF(s1) && T.InStep(s1, s2, final) && Linked(s2)
    requires Run(true, text, s1) == Accepted(final)
    requires !(T.Quiet(s1.f) && TopKind(s1).Some? && NumberKind(TopKind(s1).value))
    ensures s2.i == s1.i && (Run(false, text, s2).Accepted? ==> Owned(Run(false, text, s2).nodes))
    ensures Run(false, text, s2).Refused? ==> LeftOk(Run(false, text, s2).left, final)
    decreases |text| - s1.i, Rank(s1), 1
  {
    hide Step, Rank, T.Promise, Decide, T.InStep, T.Filled, T.WF, T.Sound, T.AllFit, Linked, Owned, LeftOk;
    T.InStepSame(s1, s2, final);
    StepProgress(true, text, s1);
    StepProgress(false, text, s2);
    var act := Decide(text, s1.i, s1.f, s1.slen, TopKind(s1));
    if act.Number? {
      NumberLinks(text, s1, s2, act.f, final);
    } else {
      match Step(true, text, s1)
      case Go(s1') =>
        T.StepWF(text, s1, s1');
        T.FirstPassPromise(text, s1');
        T.NotToDouble(text, s1);
        T.InStepForward(text, s1, s2, s1', final);
        T.NotScanning(text, s1, s1');
        if Step(false, text, s2).Go? {
          BothStep(text, s1, s2, s1', Step(false, text, s2).st, final);
          SecondPassLinks(text, s1', Step(false, text, s2).st, final);
        } else if Step(false, text, s2).Rejected? {
          RejectedAfter(text, s1, s2, s1', Step(false, text, s2).left, final);
        }
      case Finished(nodes) =>
        EndsLinked(text, s1, s2, final);
    }
  }

  lemma {:induction false} NumberLinks(text: string, s1: State, s2: State, f: Flags, final: seq<Node>)
    requires NoNul(text) && s1.i <= |text| && T.WF(s1) && T.InStep(s1, s2, final) && Linked(s2)
    requires Run(true, text, s1) == Accepted(final)
    requires Decide(text, s1.i, s1.f, s1.slen, TopKind(s1)) == Number(f)
    ensures s2.i == s1.i && (Run(false, text, s2).Accepted? ==> Owned(Run(false, text, s2).nodes))
    ensures Run(false, text, s2).Refused? ==> LeftOk(Run(false, text, s2).left, final)
    decreases |text| - s1.i, Rank(s1), 0
  {
    hide Step, T.Promise, Decide, T.InStep, T.WF, T.Sound, Complete, T.ScanEnd, Rank, Linked, Owned,
      LeftOk;
    T.InStepSame(s1, s2, final);
    var begun, scanned, s1' := T.FirstPassNumber(text, s1, f);
    T.FirstPassPromise(text, s1');
    StepProgress(true, text, s1);
    StepProgress(false, text, s2);
    var s2' := T.SecondPassNumber(text, s1, s2, f, begun, scanned, s1', final);
    T.ScannedTop(text, begun, scanned);
    FirstStepOfNumber(text, s1, begun, f, final);
    if Step(false, text, s2) == Go(s2') {
      BothStep(text, s1, s2, begun, s2', final);
      if s2'.i < scanned.i {
        T.CompleteWantsComma(scanned, s1');
        T.LeftoverIsNumeric(text, s1, begun, scanned, s2'.i);
        T.InStepKeeps(s1', s2', final);
        T.RejectsLeftover(text, s2');
        RejectedAt(s1'.(i := s2'.i), s2', final);
      } else {
        assert s1'.(i := s2'.i) == s1';
        T.NotScanningAfter(scanned, s1');
        SecondPassLinks(text, s1', s2', final);
      }
    } else if Step(false, text, s2).Rejected? {
      RejectedAfter(text, s1, s2, begun, Step(false, text, s2).left, final);
    }
  }

  lemma {:induction false} FirstStepOfNumber(text: string, s1: State, begun: State, f: Flags, final: seq<Node>)
    requires NoNul(text) && s1.i <= |text| && T.WF(s1) && Run(true, text, s1) == Accepted(final)
    requires Decide(text, s1.i, s1.f, s1.slen, TopKind(s1)) == Number(f)
    requires begun == s1.(f := f, i := s1.i + 1, built := s1.built + [Fresh(KInteger, s1.top)], top := Some(|s1.built|))
    ensures Step(true, text, s1) == Go(begun) && T.WF(begun) && T.Promise(begun, final)
  {
    hide Decide, Rank, T.Promise, T.WF;
    T.NumberChosen(text, s1, f) by {
      assert T.ModeOk(s1.f, TopKind(s1)) by {
        Moded(s1);
      }
    }
    StepProgress(true, text, s1);
    T.StepWF(text, s1, begun);
    T.FirstPassPromise(text, begun);
  }

  lemma {:induction false} Moded(s: State)
    requires T.WF(s)
    ensures T.ModeOk(s.f, TopKind(s))
  {
  }

  /** Every tree the parser returns is owned. */
  lemma {:induction false} ParsedIsOwned(text: string)
    requires NoNul(text) && Parse(text).Accepted?
    ensures Owned(Parse(text).nodes)
  {
    hide Step, Rank, Owned, Run;
    SecondPassLinks(text, Start([]), Start(Pass1(text).nodes), Pass1(text).nodes);
  }

  /** Whatever a rejected second pass leaves is linked. */
  lemma {:induction false} RefusedIsLinked(text: string)
    requires NoNul(text) && Pass1(text).Accepted? && Parse(text).Refused?
    ensures LeftOk(Parse(text).left, Pass1(text).nodes)
  {
    hide Step, Rank, Owned, Run, LeftOk;
    SecondPassLinks(text, Start([]), Start(Pass1(text).nodes), Pass1(text).nodes);
  }
}
