/** json_value_free: taking a parsed tree apart without recursion, and what json_parse_ex
  * frees when it rejects.
  *
  * The walk keeps no stack: it goes down to the last child not yet freed, counting the
  * length of the container down, and comes back up through the parent pointers.  It runs
  * on a heap whose cells become Freed; a freed cell has no node to read, so that the
  * method verifies means that it never reads one.  On every tree the parser returns the
  * walk frees each node and each block once, children before parents.  On what a rejected
  * second pass leaves it is as safe, unless the root was refused its memory
  * (RejectedIsCleanedUp, CleanUpFaultsIff); what is still open below the root leaks
  * (LeaksIff).
  */
module JsonFree {
  import opened Options
  import opened JsonMachine
  import opened JsonLinks
  import T = JsonTwoPass

  datatype Cell = Live(n: Node) | Freed

  /** What free is called on: a node, or the block its string or table points to. */
  datatype Block = NodeOf(k: nat) | DataOf(k: nat)

  predicate HasData(kind: Kind) {
    kind.KArray? || kind.KObject? || kind.KString?
  }

  /** The calls that free node k once nothing is below it. */
  function Own(nodes: seq<Node>, k: nat): seq<Block>
    requires k < |nodes|
  {
    (if HasData(nodes[k].kind) then [DataOf(k)] else []) + [NodeOf(k)]
  }

  /** The children pointers the walk follows. */
  function Fan(n: Node): nat {
    if Container(n.kind) then n.length else 0
  }

  function Child(nodes: seq<Node>, k: nat, q: nat): (c: nat)
    requires Held(nodes) && k < |nodes| && q < Fan(nodes[k])
    ensures k < c < |nodes| && nodes[c].parent == Some(k)
    ensures q < |nodes[k].values| && nodes[k].values[q] == Some(c)
  {
    assert LinksOk(nodes, k) && LinkOk(nodes, k, q);
    nodes[k].values[q].value
  }

  lemma {:induction false} ParentPoints(nodes: seq<Node>, k: nat)
    requires Held(nodes) && 0 < k < |nodes| && IsLinked(nodes, k)
    ensures nodes[k].parent.Some? && nodes[k].parent.value < k
    ensures var p := nodes[k].parent.value;
      exists q: nat :: q < Fan(nodes[p]) && Child(nodes, p, q) == k
  {
    assert T.ParentOk(nodes, k);
    var p := nodes[k].parent.value;
    var q: nat :| q < nodes[p].length && q < |nodes[p].values| && nodes[p].values[q] == Some(k);
    assert LinksOk(nodes, p);
    assert Child(nodes, p, q) == k;
  }

  function Up(nodes: seq<Node>, k: nat): (p: nat)
    requires Held(nodes) && 0 < k < |nodes|
    ensures p < k && nodes[k].parent == Some(p)
  {
    assert T.ParentOk(nodes, k);
    nodes[k].parent.value
  }

  // ------------------------------------------------------- the order, recursively

  /** The calls of free for the tree below k: last child first, k itself at the end. */
  function Order(nodes: seq<Node>, k: nat): seq<Block>
    requires Held(nodes) && k < |nodes|
    decreases |nodes| - k, Fan(nodes[k]) + 1
  {
    Finish(nodes, k, Fan(nodes[k]))
  }

  /** ... when only the first r children are left. */
  function Finish(nodes: seq<Node>, k: nat, r: nat): seq<Block>
    requires Held(nodes) && k < |nodes| && r <= Fan(nodes[k])
    decreases |nodes| - k, r
  {
    if r == 0 then Own(nodes, k)
    else Order(nodes, Child(nodes, k, r - 1)) + Finish(nodes, k, r - 1)
  }

  // -------------------------------------------------------------- exactly once

  /** k is j or a node above it, and pointers lead down from k to j. */
  predicate Under(nodes: seq<Node>, k: nat, j: nat)
    requires Held(nodes) && j < |nodes|
    decreases j
  {
    k == j || (k < j && IsLinked(nodes, j) && Under(nodes, k, Up(nodes, j)))
  }

  /** Pointers lead to j from the root. */
  predicate Reached(nodes: seq<Node>, j: nat)
    requires Held(nodes) && j < |nodes|
  {
    Under(nodes, 0, j)
  }

  lemma {:induction false} ChildIsLinked(nodes: seq<Node>, k: nat, q: nat)
    requires Held(nodes) && k < |nodes| && q < Fan(nodes[k])
    ensures IsLinked(nodes, Child(nodes, k, q))
  {
  }

  ghost predicate UnderChild(nodes: seq<Node>, k: nat, q: nat, j: nat)
    requires Held(nodes) && k < |nodes| && q < Fan(nodes[k]) && j < |nodes|
  {
    Under(nodes, Child(nodes, k, q), j)
  }

  ghost predicate PartOf(nodes: seq<Node>, k: nat, r: nat, j: nat)
    requires Held(nodes) && k < |nodes| && r <= Fan(nodes[k]) && j < |nodes|
  {
    j == k || exists q: nat :: q < r && UnderChild(nodes, k, q, j)
  }

  lemma {:induction false} UnderVia(nodes: seq<Node>, k: nat, j: nat)
    requires Held(nodes) && k < |nodes| && j < |nodes| && Under(nodes, k, j)
    ensures PartOf(nodes, k, Fan(nodes[k]), j)
    decreases j
  {
    hide Held;
    if k != j {
      var p := Up(nodes, j);
      if p == k {
        ParentPoints(nodes, j);
        var q: nat :| q < Fan(nodes[k]) && Child(nodes, k, q) == j;
        assert UnderChild(nodes, k, q, j);
      } else {
        UnderVia(nodes, k, p);
        var q: nat :| q < Fan(nodes[k]) && UnderChild(nodes, k, q, p);
        UnderIsAbove(nodes, Child(nodes, k, q), p);
        assert UnderChild(nodes, k, q, j);
      }
    }
  }

  lemma {:induction false} UnderIsAbove(nodes: seq<Node>, k: nat, j: nat)
    requires Held(nodes) && j < |nodes| && Under(nodes, k, j)
    ensures k <= j
  {
  }

  lemma {:induction false} ChildIsUnder(nodes: seq<Node>, k: nat, c: nat, j: nat)
    requires Held(nodes) && k < c < |nodes| && nodes[c].parent == Some(k) && IsLinked(nodes, c)
    requires j < |nodes| && Under(nodes, c, j)
    ensures Under(nodes, k, j)
    decreases j
  {
    hide Held;
    UnderIsAbove(nodes, c, j);
    if c != j {
      ChildIsUnder(nodes, k, c, Up(nodes, j));
    }
  }

  lemma {:induction false} OneChildOnly(nodes: seq<Node>, c: nat, d: nat, j: nat)
    requires Held(nodes) && 0 < c < |nodes| && 0 < d < |nodes| && j < |nodes| && c != d
    requires Up(nodes, c) == Up(nodes, d)
    ensures !(Under(nodes, c, j) && Under(nodes, d, j))
    decreases j
  {
    hide Held;
    assert !Under(nodes, d, Up(nodes, c)) && !Under(nodes, c, Up(nodes, d));
    if j > 0 {
      OneChildOnly(nodes, c, d, Up(nodes, j));
    }
  }

  lemma {:induction false} ChildrenDiffer(nodes: seq<Node>, k: nat, q: nat, r: nat)
    requires Held(nodes) && k < |nodes| && q < r < Fan(nodes[k])
    ensures Child(nodes, k, q) != Child(nodes, k, r)
  {
    assert LinksOk(nodes, k);
  }

  /** How often block b of node j is freed when the first r children of k are left. */
  lemma {:induction false} FinishCounts(nodes: seq<Node>, k: nat, r: nat, b: Block)
    requires Held(nodes) && k < |nodes| && r <= Fan(nodes[k]) && b.k < |nodes|
    ensures multiset(Finish(nodes, k, r))[b]
      == if PartOf(nodes, k, r, b.k) then multiset(Own(nodes, b.k))[b] else 0
    decreases |nodes| - k, r
  {
    hide Held, Under, UnderChild, PartOf, Fan, HasData, Own, IsLinked;
    var j := b.k;
    if r == 0 {
      OwnCounts(nodes, k, b);
      NoChildLeft(nodes, k, j);
    } else {
      var c := Child(nodes, k, r - 1);
      FinishCounts(nodes, c, Fan(nodes[c]), b);
      FinishCounts(nodes, k, r - 1, b);
      SumCounts(Order(nodes, c), Finish(nodes, k, r - 1), b);
      UnderIffPart(nodes, c, j);
      OneMoreChild(nodes, k, r, j);
    }
  }

  lemma {:induction false} NoChildLeft(nodes: seq<Node>, k: nat, j: nat)
    requires Held(nodes) && k < |nodes| && j < |nodes|
    ensures PartOf(nodes, k, 0, j) <==> j == k
  {
    hide Held, Under, Fan;
  }

  /** A node is below one child only. */
  lemma {:induction false} OneMoreChild(nodes: seq<Node>, k: nat, r: nat, j: nat)
    requires Held(nodes) && k < |nodes| && 0 < r <= Fan(nodes[k]) && j < |nodes|
    ensures var c := Child(nodes, k, r - 1);
      && (PartOf(nodes, k, r, j) <==> Under(nodes, c, j) || PartOf(nodes, k, r - 1, j))
      && !(Under(nodes, c, j) && PartOf(nodes, k, r - 1, j))
  {
    hide Held, Under, Fan;
    var c := Child(nodes, k, r - 1);
    assert PartOf(nodes, k, r, j) <==> UnderChild(nodes, k, r - 1, j) || PartOf(nodes, k, r - 1, j);
    if Under(nodes, c, j) {
      UnderIsAbove(nodes, c, j);
      forall q: nat | q < r - 1 ensures !UnderChild(nodes, k, q, j) {
        ChildrenDiffer(nodes, k, q, r - 1);
        OneChildOnly(nodes, Child(nodes, k, q), c, j);
      }
    }
  }

  lemma {:induction false} UnderIffPart(nodes: seq<Node>, k: nat, j: nat)
    requires Held(nodes) && k < |nodes| && j < |nodes|
    ensures Under(nodes, k, j) <==> PartOf(nodes, k, Fan(nodes[k]), j)
  {
    hide Held;
    if Under(nodes, k, j) {
      UnderVia(nodes, k, j);
    }
    if k != j && PartOf(nodes, k, Fan(nodes[k]), j) {
      var q: nat :| q < Fan(nodes[k]) && UnderChild(nodes, k, q, j);
      ChildIsLinked(nodes, k, q);
      ChildIsUnder(nodes, k, Child(nodes, k, q), j);
    }
  }

  lemma {:induction false} OwnCounts(nodes: seq<Node>, k: nat, b: Block)
    requires k < |nodes| && b.k < |nodes|
    ensures k != b.k ==> multiset(Own(nodes, k))[b] == 0
    ensures multiset(Own(nodes, b.k))[b] == if b.NodeOf? || HasData(nodes[b.k].kind) then 1 else 0
  {
    hide HasData;
  }

  lemma {:induction false} SumCounts(s: seq<Block>, t: seq<Block>, b: Block)
    ensures multiset(s + t)[b] == multiset(s)[b] + multiset(t)[b]
  {
  }

  /** What is freed: the nodes and blocks that pointers lead to from the root, once. */
  lemma {:induction false} FreedWhenReached(nodes: seq<Node>, b: Block)
    requires Held(nodes) && b.k < |nodes|
    ensures multiset(Order(nodes, 0))[b]
      == if Reached(nodes, b.k) && (b.NodeOf? || HasData(nodes[b.k].kind)) then 1 else 0
  {
    hide Held, HasData, Fan, Own, Under;
    FinishCounts(nodes, 0, Fan(nodes[0]), b);
    UnderIffPart(nodes, 0, b.k);
    OwnCounts(nodes, b.k, b);
  }

  lemma {:induction false} AllReached(nodes: seq<Node>, j: nat)
    requires Owned(nodes) && j < |nodes|
    ensures Held(nodes) && Reached(nodes, j)
    decreases j
  {
    hide Held;
    OwnedIsHeld(nodes);
    if j > 0 {
      AllReached(nodes, Up(nodes, j));
    }
  }

  /** In a complete tree every node and every block is freed exactly once. */
  lemma {:induction false} FreedExactlyOnce(nodes: seq<Node>, b: Block)
    requires Owned(nodes) && b.k < |nodes|
    ensures Held(nodes)
    ensures multiset(Order(nodes, 0))[b] == if b.NodeOf? || HasData(nodes[b.k].kind) then 1 else 0
  {
    hide Owned, Held, HasData, Order, Reached;
    AllReached(nodes, b.k);
    FreedWhenReached(nodes, b);
  }

  // ----------------------------------------------------------- children first

  /** By the time a node is freed its children have been. */
  ghost predicate ChildrenBefore(nodes: seq<Node>, log: seq<Block>, i: nat)
    requires Held(nodes) && i < |log|
  {
    log[i].NodeOf? && log[i].k < |nodes| ==>
      forall q: nat | q < Fan(nodes[log[i].k]) :: NodeOf(Child(nodes, log[i].k, q)) in log[..i]
  }

  lemma {:induction false} FinishEndsWith(nodes: seq<Node>, k: nat, r: nat)
    requires Held(nodes) && k < |nodes| && r <= Fan(nodes[k])
    ensures var f := Finish(nodes, k, r); f != [] && f[|f| - 1] == NodeOf(k)
    decreases r
  {
    hide Held;
    if r > 0 {
      FinishEndsWith(nodes, k, r - 1);
    }
  }

  /** Below k, children come first; k itself has its first r children before it. */
  lemma {:induction false} FinishInOrder(nodes: seq<Node>, k: nat, r: nat, i: nat)
    requires Held(nodes) && k < |nodes| && r <= Fan(nodes[k]) && i < |Finish(nodes, k, r)|
    ensures Finish(nodes, k, r)[i] != NodeOf(k) ==> ChildrenBefore(nodes, Finish(nodes, k, r), i)
    ensures Finish(nodes, k, r)[i] == NodeOf(k) ==>
      forall q: nat | q < r :: NodeOf(Child(nodes, k, q)) in Finish(nodes, k, r)[..i]
    decreases |nodes| - k, r
  {
    hide Held, HasData, Fan;
    var f := Finish(nodes, k, r);
    if r > 0 {
      var c := Child(nodes, k, r - 1);
      var a, b := Order(nodes, c), Finish(nodes, k, r - 1);
      if i < |a| {
        FinishInOrder(nodes, c, Fan(nodes[c]), i);
        BelowIsLater(nodes, c, Fan(nodes[c]), i);
        assert f[..i] == a[..i];
      } else {
        FinishInOrder(nodes, k, r - 1, i - |a|);
        FinishEndsWith(nodes, c, Fan(nodes[c]));
        assert f[..i] == a + b[..i - |a|];
        assert NodeOf(c) in a;
      }
    }
  }

  /** Only nodes from k on are freed below k. */
  lemma {:induction false} BelowIsLater(nodes: seq<Node>, k: nat, r: nat, i: nat)
    requires Held(nodes) && k < |nodes| && r <= Fan(nodes[k]) && i < |Finish(nodes, k, r)|
    ensures k <= Finish(nodes, k, r)[i].k < |nodes|
    decreases |nodes| - k, r
  {
    hide Held, HasData, Fan;
    if r > 0 {
      var c := Child(nodes, k, r - 1);
      var a := Order(nodes, c);
      if i < |a| {
        BelowIsLater(nodes, c, Fan(nodes[c]), i);
      } else {
        BelowIsLater(nodes, k, r - 1, i - |a|);
      }
    }
  }

  /** Children are freed before their parents. */
  lemma {:induction false} FreedBottomUp(nodes: seq<Node>, i: nat)
    requires Held(nodes) && i < |Order(nodes, 0)|
    ensures ChildrenBefore(nodes, Order(nodes, 0), i)
  {
    hide Finish, Fan;
    FinishInOrder(nodes, 0, Fan(nodes[0]), i);
  }

  // ------------------------------------------------------------------ the walk

  /** Children of k the walk has still to go down to. */
  function Rem(cells: seq<Cell>, k: nat): nat
    requires k < |cells|
  {
    match cells[k]
    case Live(n) => Fan(n)
    case Freed => 0
  }

  /** What is left to free, with the walk at v. */
  function Todo(nodes: seq<Node>, cells: seq<Cell>, v: nat): seq<Block>
    requires Held(nodes) && v < |nodes| == |cells| && Bounded(nodes, cells)
    decreases v
  {
    Finish(nodes, v, Rem(cells, v)) + (if v == 0 then [] else Todo(nodes, cells, Up(nodes, v)))
  }

  predicate Bounded(nodes: seq<Node>, cells: seq<Cell>)
    requires |nodes| == |cells|
  {
    forall k: nat | k < |cells| :: Rem(cells, k) <= Fan(nodes[k])
  }

  lemma {:induction false} TodoFrame(nodes: seq<Node>, a: seq<Cell>, b: seq<Cell>, v: nat)
    requires Held(nodes) && v < |nodes| == |a| == |b| && Bounded(nodes, a) && Bounded(nodes, b)
    requires forall k: nat | k <= v :: a[k] == b[k]
    ensures Todo(nodes, a, v) == Todo(nodes, b, v)
    decreases v
  {
    hide Held;
    if v > 0 {
      TodoFrame(nodes, a, b, Up(nodes, v));
    }
  }

  /** The walk has come down to v through live nodes it has entered. */
  predicate LivePath(nodes: seq<Node>, cells: seq<Cell>, entered: set<nat>, v: nat)
    requires Held(nodes) && v < |nodes| == |cells|
    decreases v
  {
    cells[v].Live? && v in entered && (v > 0 ==> LivePath(nodes, cells, entered, Up(nodes, v)))
  }

  lemma {:induction false} PathFrame(nodes: seq<Node>, a: seq<Cell>, b: seq<Cell>, entered: set<nat>, more: set<nat>,
                                     v: nat)
    requires Held(nodes) && v < |nodes| == |a| == |b| && LivePath(nodes, a, entered, v) && entered <= more
    requires forall k: nat | k <= v :: a[k].Live? ==> b[k].Live?
    ensures LivePath(nodes, b, more, v)
    decreases v
  {
    hide Held;
    if v > 0 {
      PathFrame(nodes, a, b, entered, more, Up(nodes, v));
    }
  }

  predicate CellOk(nodes: seq<Node>, cells: seq<Cell>, entered: set<nat>, k: nat)
    requires k < |nodes| == |cells|
  {
    && (cells[k].Live? ==>
          cells[k].n == nodes[k].(length := cells[k].n.length) && cells[k].n.length <= nodes[k].length)
    && (k !in entered ==> cells[k] == Live(nodes[k]))
  }

  /** The children still to go down to have not been entered. */
  predicate Ahead(nodes: seq<Node>, cells: seq<Cell>, entered: set<nat>, k: nat)
    requires Held(nodes) && k < |nodes| == |cells|
  {
    forall q: nat | q < Rem(cells, k) && q < Fan(nodes[k]) :: Child(nodes, k, q) !in entered
  }

  predicate Walking(nodes: seq<Node>, cells: seq<Cell>, entered: set<nat>)
  {
    && |nodes| == |cells| && Held(nodes)
    && (forall k: nat | k < |nodes| :: CellOk(nodes, cells, entered, k))
    && (forall k: nat | k < |nodes| :: Ahead(nodes, cells, entered, k))
  }

  lemma {:induction false} WalkingBounded(nodes: seq<Node>, cells: seq<Cell>, entered: set<nat>)
    requires Walking(nodes, cells, entered)
    ensures Bounded(nodes, cells)
  {
    hide Held;
    forall k: nat | k < |cells| ensures Rem(cells, k) <= Fan(nodes[k]) {
      assert CellOk(nodes, cells, entered, k);
    }
  }

  /** Going down to the last child not yet freed. */
  lemma {:induction false} GoesDown(nodes: seq<Node>, cells: seq<Cell>, entered: set<nat>, v: nat) returns (c: nat,
          next: seq<Cell>)
    requires Walking(nodes, cells, entered) && v < |nodes| && LivePath(nodes, cells, entered, v)
    requires Rem(cells, v) > 0
    ensures var n := cells[v].n;
      && n.length <= |n.values| && n.values[n.length - 1] == Some(c) && c < |nodes|
      && next == cells[v := Live(n.(length := n.length - 1))]
    ensures Walking(nodes, next, entered + {c}) && LivePath(nodes, next, entered + {c}, c)
    ensures Bounded(nodes, cells) && Bounded(nodes, next)
    ensures Todo(nodes, next, c) == Todo(nodes, cells, v)
  {
    hide Held;
    var n := cells[v].n;
    assert CellOk(nodes, cells, entered, v) && Ahead(nodes, cells, entered, v);
    var r := Rem(cells, v);
    c := Child(nodes, v, r - 1);
    next := cells[v := Live(n.(length := n.length - 1))];
    var more := entered + {c};
    DownWalking(nodes, cells, entered, v, c, next);
    WalkingBounded(nodes, cells, entered);
    WalkingBounded(nodes, next, more);
    PathFrame(nodes, cells, next, entered, more, v);
    assert next[c] == Live(nodes[c]) by {
      assert CellOk(nodes, cells, entered, c);
    }
    if v > 0 {
      TodoFrame(nodes, cells, next, Up(nodes, v));
    }
    var rest := if v == 0 then [] else Todo(nodes, cells, Up(nodes, v));
    assert Finish(nodes, v, r) == Order(nodes, c) + Finish(nodes, v, r - 1);
    assert Todo(nodes, next, v) == Finish(nodes, v, r - 1) + rest;
    assert Todo(nodes, next, c) == Order(nodes, c) + Todo(nodes, next, v);
  }

  lemma {:induction false} DownWalking(nodes: seq<Node>, cells: seq<Cell>, entered: set<nat>, v: nat, c: nat,
          next: seq<Cell>)
    requires Walking(nodes, cells, entered) && v < |nodes| && v in entered
    requires cells[v].Live? && Fan(cells[v].n) > 0 && Rem(cells, v) <= Fan(nodes[v])
    requires c == Child(nodes, v, Rem(cells, v) - 1)
    requires next == cells[v := Live(cells[v].n.(length := cells[v].n.length - 1))]
    ensures Walking(nodes, next, entered + {c})
  {
    hide Held;
    var more := entered + {c};
    assert CellOk(nodes, cells, entered, v);
    forall k: nat | k < |nodes| ensures CellOk(nodes, next, more, k) {
      assert CellOk(nodes, cells, entered, k);
    }
    forall k: nat | k < |nodes| ensures Ahead(nodes, next, more, k) {
      assert Ahead(nodes, cells, entered, k);
      forall q: nat | q < Rem(next, k) && q < Fan(nodes[k]) ensures Child(nodes, k, q) !in more {
        if k == v {
          ChildrenDiffer(nodes, v, q, Rem(cells, v) - 1);
        }
      }
    }
  }

  /** Freeing v and going back up. */
  lemma {:induction false} GoesUp(nodes: seq<Node>, cells: seq<Cell>, entered: set<nat>,
          v: nat) returns (next: seq<Cell>)
    requires Walking(nodes, cells, entered) && v < |nodes| && LivePath(nodes, cells, entered, v)
    requires Rem(cells, v) == 0
    ensures cells[v].n.parent == nodes[v].parent && cells[v].n.kind == nodes[v].kind
    ensures next == cells[v := Freed] && Walking(nodes, next, entered)
    ensures v == 0 <==> nodes[v].parent.None?
    ensures Bounded(nodes, cells) && Bounded(nodes, next)
    ensures v == 0 ==> Todo(nodes, cells, v) == Own(nodes, v)
    ensures v > 0 ==>
      && LivePath(nodes, next, entered, Up(nodes, v))
      && Todo(nodes, cells, v) == Own(nodes, v) + Todo(nodes, next, Up(nodes, v))
  {
    hide Own, HasData;
    next := cells[v := Freed];
    assert CellOk(nodes, cells, entered, v);
    UpWalking(nodes, cells, entered, v, next);
    WalkingBounded(nodes, cells, entered);
    WalkingBounded(nodes, next, entered);
    if v > 0 {
      PathFrame(nodes, cells, next, entered, entered, Up(nodes, v));
      TodoFrame(nodes, cells, next, Up(nodes, v));
    }
  }

  lemma {:induction false} UpWalking(nodes: seq<Node>, cells: seq<Cell>, entered: set<nat>, v: nat, next: seq<Cell>)
    requires Walking(nodes, cells, entered) && v < |nodes| && v in entered && next == cells[v := Freed]
    ensures Walking(nodes, next, entered)
  {
    hide Held;
    forall k: nat | k < |nodes| ensures CellOk(nodes, next, entered, k) && Ahead(nodes, next, entered, k) {
      assert CellOk(nodes, cells, entered, k) && Ahead(nodes, cells, entered, k);
    }
  }

  /** Unfreed nodes plus remaining lengths. */
  function Measure(cells: seq<Cell>): nat {
    if cells == [] then 0 else Measure(cells[..|cells| - 1]) + Weight(cells[|cells| - 1])
  }

  function Weight(c: Cell): nat {
    match c
    case Live(n) => 1 + Fan(n)
    case Freed => 0
  }

  lemma {:induction false} MeasureDrops(cells: seq<Cell>, k: nat, c: Cell)
    requires k < |cells| && Weight(c) < Weight(cells[k])
    ensures Measure(cells[k := c]) < Measure(cells)
    decreases |cells|
  {
    hide Weight;
    var b := cells[k := c];
    var m := |cells| - 1;
    if k < m {
      MeasureDrops(cells[..m], k, c);
      assert b[..m] == cells[..m][k := c];
    } else {
      assert b[..m] == cells[..m];
    }
  }

  ghost predicate Logged(log: seq<Block>, cells: seq<Cell>) {
    forall k: nat | k < |cells| :: cells[k].Freed? <==> NodeOf(k) in log
  }

  function Started(nodes: seq<Node>): (cells: seq<Cell>)
    ensures |cells| == |nodes|
  {
    seq(|nodes|, k requires 0 <= k < |nodes| => Live(nodes[k]))
  }

  lemma {:induction false} StartWalking(nodes: seq<Node>, cells: seq<Cell>)
    requires Held(nodes) && cells == Started(nodes)
    ensures |nodes| > 0 && Walking(nodes, cells, {0}) && LivePath(nodes, cells, {0}, 0)
    ensures Bounded(nodes, cells) && Todo(nodes, cells, 0) == Order(nodes, 0)
  {
    hide LinksOk, IsLinked;
    forall k: nat | k < |nodes| ensures CellOk(nodes, cells, {0}, k) && Ahead(nodes, cells, {0}, k) {
    }
    WalkingBounded(nodes, cells, {0});
  }

  lemma {:induction false} LiveAt(nodes: seq<Node>, cells: seq<Cell>, entered: set<nat>, v: nat)
    requires Held(nodes) && v < |nodes| == |cells| && LivePath(nodes, cells, entered, v)
    ensures cells[v].Live? && Rem(cells, v) == Fan(cells[v].n)
  {
    hide Held;
  }

  lemma {:induction false} StepDrops(cells: seq<Cell>, v: nat)
    requires v < |cells| && cells[v].Live?
    ensures Measure(cells[v := Freed]) < Measure(cells)
    ensures Fan(cells[v].n) > 0 ==>
      Measure(cells[v := Live(cells[v].n.(length := cells[v].n.length - 1))]) < Measure(cells)
  {
    hide Measure;
    MeasureDrops(cells, v, Freed);
    if Fan(cells[v].n) > 0 {
      MeasureDrops(cells, v, Live(cells[v].n.(length := cells[v].n.length - 1)));
    }
  }

  lemma {:induction false} ReachedFreed(nodes: seq<Node>, cells: seq<Cell>)
    requires Held(nodes) && |cells| == |nodes| && Logged(Order(nodes, 0), cells)
    ensures forall k: nat | k < |cells| :: cells[k].Freed? <==> Reached(nodes, k)
  {
    hide Held, Order, Reached;
    forall k: nat | k < |cells| ensures cells[k].Freed? <==> Reached(nodes, k) {
      FreedWhenReached(nodes, NodeOf(k));
    }
  }

  lemma {:induction false} LogsOwn(nodes: seq<Node>, log: seq<Block>, cells: seq<Cell>, v: nat)
    requires v < |nodes| == |cells| && Logged(log, cells)
    ensures Logged(log + Own(nodes, v), cells[v := Freed])
  {
    var more := log + Own(nodes, v);
    assert Own(nodes, v)[|Own(nodes, v)| - 1] == NodeOf(v);
    forall k: nat | k < |cells| ensures cells[v := Freed][k].Freed? <==> NodeOf(k) in more {
    }
  }

  lemma {:induction false} LogsNothing(log: seq<Block>, cells: seq<Cell>, v: nat, n: Node)
    requires v < |cells| && cells[v].Live? && Logged(log, cells)
    ensures Logged(log, cells[v := Live(n)])
  {
  }

  lemma {:induction false} KindsSame(nodes: seq<Node>, n: Node, v: nat)
    requires v < |nodes| && n.kind == nodes[v].kind
    ensures Own(nodes, v) == (if HasData(n.kind) then [DataOf(v)] else []) + [NodeOf(v)]
  {
  }

  lemma {:induction false} Regroups(log: seq<Block>, own: seq<Block>, rest: seq<Block>)
    ensures log + (own + rest) == (log + own) + rest
  {
  }

  /** json_value_free on a heap that holds a tree, perhaps a partial one, in its first cells;
    * the root is cell 0. */
  method JsonValueFree(heap: array<Cell>, ghost nodes: seq<Node>) returns (log: seq<Block>)
    requires Held(nodes) && |nodes| <= heap.Length && heap[..|nodes|] == Started(nodes)
    modifies heap
    ensures log == Order(nodes, 0)
    ensures forall k: nat | k < |nodes| :: heap[k].Freed? <==> Reached(nodes, k)
    ensures forall k | |nodes| <= k < heap.Length :: heap[k] == old(heap[k])
  {
    hide Held, Todo, Order, Own, LivePath, Walking, Bounded, Measure, Weight, Rem, Logged, HasData, Container, Up,
      Reached;
    log := [];
    ghost var size := |nodes|;
    var value: Option<nat> := Some(0);
    ghost var entered: set<nat> := {0};
    StartWalking(nodes, heap[..size]);
    StartLogged(nodes, heap[..size]);
    while value.Some?
      invariant Walking(nodes, heap[..size], entered) && Logged(log, heap[..size])
      invariant value.Some? ==>
        && value.value < |nodes| && LivePath(nodes, heap[..size], entered, value.value)
        && Bounded(nodes, heap[..size]) && log + Todo(nodes, heap[..size], value.value) == Order(nodes, 0)
      invariant value.None? ==> log == Order(nodes, 0)
      invariant forall k | size <= k < heap.Length :: heap[k] == old(heap[k])
      decreases Measure(heap[..size])
    {
      var v := value.value;
      ghost var cells := heap[..size];
      LiveAt(nodes, cells, entered, v);
      StepDrops(cells, v);
      assert heap[v] == cells[v];
      var n := heap[v].n;
      assert Container(n.kind) && n.length > 0 <==> Fan(n) > 0 by {
        FanOf(n);
      }
      if Container(n.kind) && n.length > 0 {
        ghost var c, next := GoesDown(nodes, cells, entered, v);
        LogsNothing(log, cells, v, n.(length := n.length - 1));
        heap[v] := Live(n.(length := n.length - 1));
        value := n.values[n.length - 1];
        assert heap[..size] == next;
        entered := entered + {c};
      } else {
        ghost var next := GoesUp(nodes, cells, entered, v);
        LogsOwn(nodes, log, cells, v);
        KindsSame(nodes, n, v);
        ghost var before := log;
        if HasData(n.kind) {
          log := log + [DataOf(v)];
        }
        value := n.parent;
        heap[v] := Freed;
        log := log + [NodeOf(v)];
        assert heap[..size] == next;
        assert log == before + Own(nodes, v);
        if v > 0 {
          Regroups(before, Own(nodes, v), Todo(nodes, next, Up(nodes, v)));
        }
      }
    }
    ReachedFreed(nodes, heap[..size]);
    forall k: nat | k < size ensures heap[k].Freed? <==> Reached(nodes, k) {
      assert heap[..size][k] == heap[k];
    }
  }

  lemma {:induction false} FanOf(n: Node)
    ensures Container(n.kind) && n.length > 0 <==> Fan(n) > 0
  {
  }

  lemma {:induction false} StartLogged(nodes: seq<Node>, cells: seq<Cell>)
    requires cells == Started(nodes)
    ensures Logged([], cells)
  {
  }

  /** Any tree the parser returns can be taken apart this way. */
  lemma {:induction false} ParsedIsFreed(text: string, b: Block)
    requires NoNul(text) && Parse(text).Accepted? && b.k < |Parse(text).nodes|
    ensures Held(Parse(text).nodes)
    ensures multiset(Order(Parse(text).nodes, 0))[b]
      == if b.NodeOf? || HasData(Parse(text).nodes[b.k].kind) then 1 else 0
  {
    hide Owned, Held, Parse, Order;
    ParsedIsOwned(text);
    FreedExactlyOnce(Parse(text).nodes, b);
  }

  // ------------------------------------------------------ the clean-up after an error

  /** The calls of free along the chain, from node k up to node n. */
  function Chain(k: nat, n: nat): seq<Block>
    decreases n - k
  {
    if k >= n then [] else [NodeOf(k)] + Chain(k + 1, n)
  }

  lemma {:induction false} ChainCounts(k: nat, n: nat, b: Block)
    ensures multiset(Chain(k, n))[b] == if b.NodeOf? && k <= b.k < n then 1 else 0
    decreases n - k
  {
    if k < n {
      ChainCounts(k + 1, n, b);
      SumCounts([NodeOf(k)], Chain(k + 1, n), b);
    }
  }

  lemma {:induction false} ChainNext(log: seq<Block>, k: nat, n: nat)
    requires k < n
    ensures log + Chain(k, n) == (log + [NodeOf(k)]) + Chain(k + 1, n)
  {
  }

  /** e_failed: free what is left of the chain, then the partial tree.  A node that was
    * refused stands between them and is not touched. */
  method CleanUp(heap: array<Cell>, ghost nodes: seq<Node>, root: bool, chain: nat) returns (log: seq<Block>)
    requires |nodes| <= chain <= heap.Length && heap[..|nodes|] == Started(nodes)
    requires root == (nodes != []) && (root ==> Held(nodes))
    requires forall k | chain <= k < heap.Length :: heap[k].Live?
    modifies heap
    ensures log == Chain(chain, heap.Length) + if root then Order(nodes, 0) else []
    ensures forall k: nat | k < |nodes| :: heap[k].Freed? <==> Reached(nodes, k)
    ensures forall k | |nodes| <= k < chain :: heap[k] == old(heap[k])
    ensures forall k | chain <= k < heap.Length :: heap[k].Freed?
  {
    hide Held, Order, Reached, Chain;
    log := [];
    var alloc := chain;
    while alloc < heap.Length
      invariant chain <= alloc <= heap.Length
      invariant forall k | 0 <= k < chain :: heap[k] == old(heap[k])
      invariant forall k | chain <= k < alloc :: heap[k].Freed?
      invariant forall k | alloc <= k < heap.Length :: heap[k].Live?
      invariant log + Chain(alloc, heap.Length) == Chain(chain, heap.Length)
    {
      ChainNext(log, alloc, heap.Length);
      heap[alloc] := Freed;
      log := log + [NodeOf(alloc)];
      alloc := alloc + 1;
    }
    ChainEnds(alloc, heap.Length);
    assert heap[..|nodes|] == old(heap[..|nodes|]);
    if root {
      var tree := JsonValueFree(heap, nodes);
      log := log + tree;
    }
  }

  lemma {:induction false} ChainEnds(k: nat, n: nat)
    requires k >= n
    ensures Chain(k, n) == []
  {
  }

  /** How often a block is freed by the clean-up of a rejected second pass: nodes still in
    * the chain once, nodes that pointers lead to from the root once with their blocks, and
    * nothing else. */
  function Freeings(left: State, b: Block): nat
    requires Linked(WithoutBare(left))
  {
    var nodes := WithoutBare(left).built;
    if b.k >= |left.built| then (if b.NodeOf? && b.k < |left.built| + |left.pool| then 1 else 0)
    else if b.k >= |nodes| then 0
    else
      LinkedIsHeld(WithoutBare(left));
      if Reached(nodes, b.k) && (b.NodeOf? || HasData(nodes[b.k].kind)) then 1 else 0
  }

  /** Whenever the second pass rejects, the nodes are as CleanUp needs them, and it frees
    * each block as often as Freeings says, so no block twice. */
  lemma {:induction false} RejectedIsCleanedUp(text: string, b: Block)
    requires NoNul(text) && Pass1(text).Accepted? && Parse(text).Refused?
    ensures LeftOk(Parse(text).left, Pass1(text).nodes)
    ensures var left := Parse(text).left; var nodes := WithoutBare(left).built;
      && |nodes| <= |left.built| && Started(left.built + left.pool)[..|nodes|] == Started(nodes)
      && (nodes != [] ==> Held(nodes))
      && multiset(Chain(|left.built|, |left.built| + |left.pool|) + if nodes != [] then Order(nodes, 0) else [])[b]
         == Freeings(left, b)
  {
    hide Parse, Pass1, Order, Reached, HasData, Held, Linked, Chain;
    RefusedIsLinked(text);
    var left := Parse(text).left;
    var nodes := WithoutBare(left).built;
    var n := |left.built| + |left.pool|;
    StartedPart(left.built + left.pool, nodes);
    ChainCounts(|left.built|, n, b);
    if nodes != [] {
      LinkedIsHeld(WithoutBare(left));
      SumCounts(Chain(|left.built|, n), Order(nodes, 0), b);
      if b.k < |nodes| {
        FreedWhenReached(nodes, b);
      } else {
        NotInTree(nodes, b);
      }
    }
  }

  lemma {:induction false} StartedPart(all: seq<Node>, nodes: seq<Node>)
    requires nodes <= all
    ensures Started(all)[..|nodes|] == Started(nodes)
  {
  }

  lemma {:induction false} NotInTree(nodes: seq<Node>, b: Block)
    requires Held(nodes) && |nodes| > 0 && b.k >= |nodes|
    ensures multiset(Order(nodes, 0))[b] == 0
  {
    hide Held, Finish, Fan;
    if b in Order(nodes, 0) {
      var i: nat :| i < |Order(nodes, 0)| && Order(nodes, 0)[i] == b;
      BelowIsLater(nodes, 0, Fan(nodes[0]), i);
    }
  }

  /** The nodes that leak: the containers still open below the root, and what is in them. */
  lemma {:induction false} LeaksIff(s: State, k: nat)
    requires Linked(s) && k < |s.built|
    ensures Held(s.built)
    ensures !Reached(s.built, k) <==>
      exists a: nat | 0 < a < |s.built| :: OnPath(s.built, s.top, a) && (a == k || T.Ancestor(s.built, a, k))
    decreases k
  {
    hide Linked, OnPath, Held;
    LinkedIsHeld(s);
    LinkedFacts(s, k);
    if k > 0 {
      var p := Up(s.built, k);
      LeaksIff(s, p);
    }
  }

  lemma {:induction false} LinkedFacts(s: State, k: nat)
    requires Linked(s) && k < |s.built|
    ensures T.Tree(s.built) && (s.top.Some? ==> s.top.value < |s.built|)
    ensures k > 0 ==> (OnPath(s.built, s.top, k) <==> !IsLinked(s.built, k))
  {
    assert NodeOk(s.built, s.top, k);
  }

  /** json_value_free reads through a null table exactly if it is the root that was
    * refused. */
  lemma {:induction false} CleanUpFaultsIff(left: State, final: seq<Node>)
    requires LeftOk(left, final) && left.built != []
    ensures Failed(false, left) == Crash <==> WithoutBare(left).built == []
  {
    LinkedIsWhole(WithoutBare(left));
  }
}
