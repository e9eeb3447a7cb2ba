/** The entity table as the program keeps it: an array of slots and, through the list
  * heads embedded in them, two circular doubly linked lists.
  *
  * next and prev hold the links by index: 0 to MAX - 1 are the slots, the two indices
  * after them the list heads, and -1 is the null pointer list_del leaves behind.  Every
  * method is proved to do to the abstract store exactly what EntityStore says, and to
  * leave both rings well formed, whatever it is called with.
  */
module EntityTable {
  import opened EntityStore

  const NODE_HEAD: nat := MAX
  const OSM_HEAD: nat := MAX + 1
  const LINKS: nat := MAX + 2
  const NULL: int := -1

  // ---------------------------------------------------------------- rings of links

  /** The i-th stop on the way round: the head at both ends, the items in between. */
  function Stop(head: nat, items: seq<nat>, i: int): (x: nat)
    ensures x == head || x in items
  {
    if 0 <= i < |items| then items[i] else head
  }

  predicate LinkedAt(next: seq<int>, prev: seq<int>, head: nat, items: seq<nat>, i: int)
    requires |next| == |prev| == LINKS && head < LINKS && forall x | x in items :: x < MAX
  {
    && next[Stop(head, items, i)] == Stop(head, items, i + 1)
    && prev[Stop(head, items, i + 1)] == Stop(head, items, i)
  }

  predicate Members(head: nat, items: seq<nat>) {
    MAX <= head < LINKS && (forall x | x in items :: x < MAX) && Distinct(items)
  }

  /** Following next from head meets the items in order and comes back; prev is its
    * inverse. */
  predicate Ring(next: seq<int>, prev: seq<int>, head: nat, items: seq<nat>) {
    && |next| == |prev| == LINKS && Members(head, items)
    && forall i | -1 <= i < |items| :: LinkedAt(next, prev, head, items, i)
  }

  /** No stop comes twice, but for the head. */
  lemma {:induction false} StopsApart(head: nat, items: seq<nat>, i: int, j: int)
    requires Members(head, items) && -1 <= i < j <= |items| && j - i <= |items|
    ensures Stop(head, items, i) != Stop(head, items, j)
  {
    assert forall k: nat | k < |items| :: items[k] in items;
  }

  /** Links changed only off the ring. */
  lemma {:induction false} RingFrame(next: seq<int>, prev: seq<int>, next': seq<int>, prev': seq<int>, head: nat,
          items: seq<nat>)
    requires Ring(next, prev, head, items) && |next'| == |prev'| == LINKS
    requires forall x | x in items || x == head :: next'[x] == next[x] && prev'[x] == prev[x]
    ensures Ring(next', prev', head, items)
  {
    forall i | -1 <= i < |items| ensures LinkedAt(next', prev', head, items, i) {
      assert LinkedAt(next, prev, head, items, i);
      assert forall k: nat | k < |items| :: items[k] in items;
    }
  }

  /** The links after list_add(x, head). */
  predicate Added(next: seq<int>, prev: seq<int>, next': seq<int>, prev': seq<int>, head: nat, x: nat)
  {
    && |next| == |prev| == LINKS && head < LINKS && x < LINKS && 0 <= next[head] < LINKS
    && next' == next[x := next[head]][head := x]
    && prev' == prev[next[head] := x][x := head]
  }

  lemma {:induction false} AddsToRing(next: seq<int>, prev: seq<int>, next': seq<int>, prev': seq<int>, head: nat,
          items: seq<nat>, x: nat)
    requires Ring(next, prev, head, items) && x < MAX && x !in items && Added(next, prev, next', prev', head, x)
    ensures Ring(next', prev', head, [x] + items)
  {
    var more := [x] + items;
    assert Distinct(more);
    assert LinkedAt(next, prev, head, items, -1);
    assert forall k: nat | k < |items| :: items[k] in items;
    forall i | -1 <= i < |more| ensures LinkedAt(next', prev', head, more, i) {
      assert i >= 0 ==> Stop(head, more, i + 1) == Stop(head, items, i);
      if i >= 1 {
        assert Stop(head, more, i) == Stop(head, items, i - 1);
        assert LinkedAt(next, prev, head, items, i - 1);
        StopsApart(head, items, 0, i);
      }
    }
  }

  /** The links after list_del(x). */
  predicate Deleted(next: seq<int>, prev: seq<int>, next': seq<int>, prev': seq<int>, x: nat)
  {
    && |next| == |prev| == LINKS && x < LINKS && 0 <= next[x] < LINKS && 0 <= prev[x] < LINKS
    && next' == next[prev[x] := next[x]][x := NULL]
    && prev' == prev[next[x] := prev[x]][x := NULL]
  }

  lemma {:induction false} WithoutAt(items: seq<nat>, k: nat)
    requires Distinct(items) && k < |items|
    ensures Without(items, items[k]) == items[..k] + items[k + 1..]
  {
    if k == 0 {
      WithoutOther(items[1..], items[0]);
    } else {
      assert items[0] != items[k];
      WithoutAt(items[1..], k - 1);
      assert items[..k] == [items[0]] + items[1..][..k - 1];
      assert items[1..][k..] == items[k + 1..];
    }
  }

  lemma {:induction false} WithoutOther(items: seq<nat>, x: nat)
    requires x !in items
    ensures Without(items, x) == items
  {
    if items != [] {
      WithoutOther(items[1..], x);
    }
  }

  lemma {:induction false} DeletesFromRing(next: seq<int>, prev: seq<int>, next': seq<int>, prev': seq<int>,
          head: nat, items: seq<nat>,
                        k: nat)
    requires Ring(next, prev, head, items) && k < |items| && items[k] < LINKS
    requires Deleted(next, prev, next', prev', items[k])
    ensures Ring(next', prev', head, Without(items, items[k]))
  {
    hide Ring, Deleted, Members, Stop, Without, Distinct;
    var less := items[..k] + items[k + 1..];
    LessFacts(next, prev, next', prev', head, items, k);
    forall i | -1 <= i < |less| ensures LinkedAt(next', prev', head, less, i) {
      StopWithout(head, items, k, i);
      StopWithout(head, items, k, i + 1);
      DeletesAt(next, prev, next', prev', head, items, k, i);
    }
    RingFrom(next', prev', head, less);
  }

  lemma {:induction false} LessFacts(next: seq<int>, prev: seq<int>, next': seq<int>, prev': seq<int>, head: nat,
          items: seq<nat>, k: nat)
    requires Ring(next, prev, head, items) && k < |items| && items[k] < LINKS
    requires Deleted(next, prev, next', prev', items[k])
    ensures var less := items[..k] + items[k + 1..];
      && Without(items, items[k]) == less && Members(head, less)
      && (forall x | x in less :: x < MAX) && head < LINKS && |next'| == |prev'| == LINKS
  {
    hide LinkedAt;
    WithoutAt(items, k);
    WithoutDistinct(items, items[k]);
  }

  lemma {:induction false} StopWithout(head: nat, items: seq<nat>, k: nat, i: int)
    requires k < |items| && -1 <= i < |items|
    ensures Stop(head, items[..k] + items[k + 1..], i) == Stop(head, items, if i < k then i else i + 1)
  {
  }

  lemma {:induction false} RingFrom(next: seq<int>, prev: seq<int>, head: nat, items: seq<nat>)
    requires |next| == |prev| == LINKS && Members(head, items) && head < LINKS && forall x | x in items :: x < MAX
    requires forall i | -1 <= i < |items| :: LinkedAt(next, prev, head, items, i)
    ensures Ring(next, prev, head, items)
  {
    hide LinkedAt, Members;
  }

  lemma {:induction false} MembersSmall(head: nat, items: seq<nat>)
    requires Members(head, items)
    ensures head < LINKS && forall x | x in items :: x < MAX
  {
  }

  lemma {:induction false} DeletesAt(next: seq<int>, prev: seq<int>, next': seq<int>, prev': seq<int>, head: nat,
          items: seq<nat>,
                  k: nat, i: int)
    requires Ring(next, prev, head, items) && k < |items| && items[k] < LINKS && -1 <= i < |items| - 1
    requires Deleted(next, prev, next', prev', items[k])
    ensures var a := Stop(head, items, if i < k then i else i + 1);
            var b := Stop(head, items, if i + 1 < k then i + 1 else i + 2);
      a < LINKS && b < LINKS && next'[a] == b && prev'[b] == a
  {
    hide Members;
    MembersSmall(head, items);
    assert LinkedAt(next, prev, head, items, k - 1) && LinkedAt(next, prev, head, items, k);
    var x := Stop(head, items, k);
    if i < k - 1 {
      assert LinkedAt(next, prev, head, items, i);
      StopsApart(head, items, i, k - 1);
      StopsApart(head, items, i, k);
      StopsApart(head, items, i + 1, k);
      StopsApart(head, items, i + 1, k + 1);
    } else if i == k - 1 {
      StopsApart(head, items, k - 1, k);
      StopsApart(head, items, k, k + 1);
    } else {
      assert LinkedAt(next, prev, head, items, i + 1);
      StopsApart(head, items, k - 1, i + 1);
      StopsApart(head, items, k, i + 1);
      StopsApart(head, items, k, i + 2);
      StopsApart(head, items, k + 1, i + 2);
    }
  }

  // ----------------------------------------------- the links that stand for a store

  /** Linked to itself only. */
  predicate Loose(next: seq<int>, prev: seq<int>, x: nat)
    requires x < |next| && x < |prev|
  {
    next[x] == x && prev[x] == x
  }

  predicate LooseOk(w: World, next: seq<int>, prev: seq<int>, x: nat)
    requires x < |w.slots| && x < |next| && x < |prev|
  {
    w.slots[x].id >= 0 && x !in w.nodes && x !in w.osms ==> Loose(next, prev, x)
  }

  /** Two rings, and every other live slot linked to itself. */
  predicate Rep(w: World, next: seq<int>, prev: seq<int>) {
    && Shape(w)
    && Ring(next, prev, NODE_HEAD, w.nodes) && Ring(next, prev, OSM_HEAD, w.osms)
    && forall x: nat | x < MAX :: LooseOk(w, next, prev, x)
  }

  /** Slots changed, but neither lists nor what is live. */
  lemma {:induction false} SameRep(w: World, v: World, next: seq<int>, prev: seq<int>)
    requires Rep(w, next, prev) && Shape(v) && v.nodes == w.nodes && v.osms == w.osms
    requires forall x: nat | x < MAX :: v.slots[x].id >= 0 ==> w.slots[x].id >= 0
    ensures Rep(v, next, prev)
  {
    forall x: nat | x < MAX ensures LooseOk(v, next, prev, x) {
      assert LooseOk(w, next, prev, x);
    }
  }

  lemma {:induction false} NewRep(w: World, next: seq<int>, prev: seq<int>, fd: int, ok: bool)
    requires Rep(w, next, prev) && New(w, fd, ok).code >= 0
    ensures New(w, fd, ok).code < MAX
    ensures var i := New(w, fd, ok).code; Rep(New(w, fd, ok).w, next[i := i], prev[i := i])
  {
    hide Distinct, LinkedAt;
    var i := New(w, fd, ok).code;
    var v := New(w, fd, ok).w;
    var next', prev' := next[i := i], prev[i := i];
    NewShape(w, fd, ok);
    RingFrame(next, prev, next', prev', NODE_HEAD, w.nodes);
    RingFrame(next, prev, next', prev', OSM_HEAD, w.osms);
    forall x: nat | x < MAX ensures LooseOk(v, next', prev', x) {
      assert LooseOk(w, next, prev, x);
    }
  }

  /** The first stop after the head. */
  lemma {:induction false} HeadLink(next: seq<int>, prev: seq<int>, head: nat, items: seq<nat>)
    requires Ring(next, prev, head, items)
    ensures 0 <= next[head] < LINKS && (next[head] == head || next[head] in items)
    ensures next[head] == Stop(head, items, 0)
  {
    assert LinkedAt(next, prev, head, items, -1);
  }

  lemma {:induction false} InitRep(w: World, next: seq<int>, prev: seq<int>, next': seq<int>, prev': seq<int>,
          id: nat, kind: Kind)
    requires Rep(w, next, prev) && id < MAX && w.slots[id].kind.Unknown? && (kind.Node? || kind.Osm?)
    requires Added(next, prev, next', prev', if kind.Node? then NODE_HEAD else OSM_HEAD, id)
    ensures Rep(Init(w, id, kind, true).w, next', prev')
  {
    hide Distinct, LinkedAt;
    var v := Init(w, id, kind, true).w;
    InitShape(w, id, kind, true);
    if kind.Node? {
      HeadLink(next, prev, NODE_HEAD, w.nodes);
      AddsToRing(next, prev, next', prev', NODE_HEAD, w.nodes, id);
      RingFrame(next, prev, next', prev', OSM_HEAD, w.osms);
    } else {
      HeadLink(next, prev, OSM_HEAD, w.osms);
      AddsToRing(next, prev, next', prev', OSM_HEAD, w.osms, id);
      RingFrame(next, prev, next', prev', NODE_HEAD, w.nodes);
    }
    forall x: nat | x < MAX ensures LooseOk(v, next', prev', x) {
      assert LooseOk(w, next, prev, x);
    }
  }

  /** The links of a listed slot stay in its ring. */
  lemma {:induction false} ItemLinks(next: seq<int>, prev: seq<int>, head: nat, items: seq<nat>, k: nat)
    requires Ring(next, prev, head, items) && k < |items|
    ensures items[k] < MAX && 0 <= next[items[k]] < LINKS && 0 <= prev[items[k]] < LINKS
    ensures next[items[k]] == Stop(head, items, k + 1) && prev[items[k]] == Stop(head, items, k - 1)
  {
    assert items[k] in items;
    assert LinkedAt(next, prev, head, items, k - 1) && LinkedAt(next, prev, head, items, k);
  }

  lemma {:induction false} LinksInRange(w: World, next: seq<int>, prev: seq<int>, id: nat)
    requires Rep(w, next, prev) && id < MAX && w.slots[id].id >= 0
    ensures 0 <= next[id] < LINKS && 0 <= prev[id] < LINKS
    ensures id in w.nodes ==>
      (next[id] == NODE_HEAD || next[id] in w.nodes) && (prev[id] == NODE_HEAD || prev[id] in w.nodes)
    ensures id in w.osms ==>
      (next[id] == OSM_HEAD || next[id] in w.osms) && (prev[id] == OSM_HEAD || prev[id] in w.osms)
    ensures id !in w.nodes && id !in w.osms ==> next[id] == prev[id] == id
  {
    hide LinkedAt, Distinct;
    assert LooseOk(w, next, prev, id);
    if id in w.nodes {
      ItemLinks(next, prev, NODE_HEAD, w.nodes, IndexOf(w.nodes, id));
    }
    if id in w.osms {
      ItemLinks(next, prev, OSM_HEAD, w.osms, IndexOf(w.osms, id));
    }
  }

  lemma {:induction false} RingDelete(next: seq<int>, prev: seq<int>, next': seq<int>, prev': seq<int>, head: nat,
          items: seq<nat>, x: nat)
    requires Ring(next, prev, head, items) && x < MAX && Deleted(next, prev, next', prev', x)
    requires x !in items ==> next[x] !in items && prev[x] !in items && next[x] != head && prev[x] != head
    ensures Ring(next', prev', head, Without(items, x))
  {
    hide LinkedAt, Distinct;
    if x in items {
      DeletesFromRing(next, prev, next', prev', head, items, IndexOf(items, x));
    } else {
      WithoutOther(items, x);
      RingFrame(next, prev, next', prev', head, items);
    }
  }

  lemma {:induction false} ReleaseRep(w: World, next: seq<int>, prev: seq<int>, next': seq<int>, prev': seq<int>,
          id: nat)
    requires Rep(w, next, prev) && id < MAX && w.slots[id].id >= 0 && Deleted(next, prev, next', prev', id)
    ensures Rep(Release(w, id).w, next', prev')
  {
    hide LinkedAt, Distinct;
    var v := Release(w, id).w;
    ReleaseShape(w, id);
    LinksInRange(w, next, prev, id);
    RingDelete(next, prev, next', prev', NODE_HEAD, w.nodes, id);
    RingDelete(next, prev, next', prev', OSM_HEAD, w.osms, id);
    forall x: nat | x < MAX ensures LooseOk(v, next', prev', x) {
      assert LooseOk(w, next, prev, x);
    }
  }

  /** What ly_entity_find_by_db finds from the k-th item on. */
  function FindFrom(slots: seq<Slot>, items: seq<nat>, k: nat, d: int): int
    requires k <= |items| && forall x | x in items :: x < |slots|
  {
    assert forall x | x in items[k..] :: x in items;
    FindIn(slots, items[k..], d)
  }

  lemma {:induction false} FindInStep(slots: seq<Slot>, items: seq<nat>, k: nat, d: int)
    requires k < |items| && forall x | x in items :: x < |slots|
    ensures items[k] < |slots|
    ensures FindFrom(slots, items, k, d)
      == if slots[items[k]].dbId == d then slots[items[k]].id else FindFrom(slots, items, k + 1, d)
  {
    assert forall x | x in items[k..] :: x in items;
    assert items[k..][1..] == items[k + 1..];
    assert items[k..][0] == items[k] && items[k] in items;
  }

  lemma {:induction false} FindInEnd(slots: seq<Slot>, items: seq<nat>, d: int)
    requires forall x | x in items :: x < |slots|
    ensures FindFrom(slots, items, |items|, d) == -1
  {
  }

  lemma {:induction false} StopIsHead(head: nat, items: seq<nat>, k: nat)
    requires k <= |items| && head !in items
    ensures Stop(head, items, k) == head ==> k == |items|
  {
    if k < |items| {
      assert items[k] in items;
    }
  }

  // --------------------------------------------------------------------- the table

  class Table {
    const slots: array<Slot>
    const next: array<int>
    const prev: array<int>
    var clc: int
    ghost var nodes: seq<nat>
    ghost var osms: seq<nat>

    ghost function W(): World
      reads this, slots
    {
      World(slots[..], nodes, osms, clc)
    }

    ghost predicate Valid()
      reads this, slots, next, prev
    {
      && slots.Length == MAX && next.Length == prev.Length == LINKS && next != prev
      && Rep(W(), next[..], prev[..])
    }

    /** ly_entity_store_init */
    constructor ()
      ensures Valid() && W() == EmptyStore()
      ensures fresh(slots) && fresh(next) && fresh(prev)
    {
      slots := new Slot[MAX](i => EmptySlot(false));
      next := new int[LINKS](i => i);
      prev := new int[LINKS](i => i);
      clc := 0;
      nodes, osms := [], [];
      new;
      assert slots[..] == EmptyStore().slots;
      assert LinkedAt(next[..], prev[..], NODE_HEAD, [], -1) && LinkedAt(next[..], prev[..], OSM_HEAD, [], -1);
    }

    /** ly_entity_new */
    method New(fd: int, ok: bool) returns (code: int)
      requires Valid()
      modifies this, slots, next, prev
      ensures Valid() && Reply(W(), code) == EntityStore.New(old(W()), fd, ok)
    {
      hide Rep, Shape;
      RepShape(W(), next[..], prev[..]);
      if fd < 0 {
        return -255;
      }
      var i := 0;
      while i < MAX && slots[i].id != -1
        invariant 0 <= i <= MAX
        invariant FirstFree(slots[..], i) == FirstFree(slots[..], 0)
      {
        i := i + 1;
      }
      if i == MAX {
        return -1;
      }
      if slots[i].data || slots[i].auth != NoAuth {
        return -1;
      }
      if !slots[i].pkt && !ok {
        return -1;
      }
      NewRep(W(), next[..], prev[..], fd, ok);
      next[i], prev[i] := i, i;
      slots[i] := Slot(fd, i, -1, Unknown, 0, false, false, NoAuth, true);
      code := i;
    }

    /** list_add */
    method Add(head: nat, x: nat)
      requires next.Length == prev.Length == LINKS && next != prev
      requires head < LINKS && x < LINKS && 0 <= next[head] < LINKS
      modifies next, prev
      ensures Added(old(next[..]), old(prev[..]), next[..], prev[..], head, x)
    {
      var n := next[head];
      prev[n] := x;
      next[x] := n;
      prev[x] := head;
      next[head] := x;
    }

    /** list_del */
    method Del(x: nat)
      requires next.Length == prev.Length == LINKS && next != prev
      requires x < LINKS && 0 <= next[x] < LINKS && 0 <= prev[x] < LINKS
      modifies next, prev
      ensures Deleted(old(next[..]), old(prev[..]), next[..], prev[..], x)
    {
      var n, p := next[x], prev[x];
      prev[n] := p;
      next[p] := n;
      next[x] := NULL;
      prev[x] := NULL;
    }

    /** ly_entity_init */
    method Init(id: int, kind: Kind, ok: bool) returns (code: int)
      requires Valid()
      modifies this, slots, next, prev
      ensures Valid() && Reply(W(), code) == EntityStore.Init(old(W()), id, kind, ok)
    {
      hide Rep, Shape, Added;
      RepShape(W(), next[..], prev[..]);
      if !(0 <= id < MAX) {
        return -1;
      }
      if !slots[id].kind.Unknown? {
        return 0;
      }
      ghost var w := W();
      InitShape(w, id, kind, ok);
      slots[id] := slots[id].(kind := kind);
      if kind.Node? || kind.Osm? {
        if !ok {
          InitSameRep(w, W(), next[..], prev[..], id, kind, ok);
          return -1;
        }
        var head := if kind.Node? then NODE_HEAD else OSM_HEAD;
        RepHeads(w, next[..], prev[..]);
        slots[id] := slots[id].(data := true);
        ghost var next0, prev0 := next[..], prev[..];
        Add(head, id);
        if kind.Node? {
          nodes := [id] + nodes;
        } else {
          osms := [id] + osms;
        }
        InitRep(w, next0, prev0, next[..], prev[..], id, kind);
        assert W() == EntityStore.Init(w, id, kind, ok).w;
      } else {
        if kind.Clc? {
          clc := id;
        }
        InitSameRep(w, W(), next[..], prev[..], id, kind, ok);
      }
      return 0;
    }

    /** ly_entity_release */
    method Release(id: int) returns (code: int)
      requires Valid()
      modifies this, slots, next, prev
      ensures Valid() && Reply(W(), code) == EntityStore.Release(old(W()), id)
    {
      hide Rep, Shape, Deleted;
      RepShape(W(), next[..], prev[..]);
      if !(0 <= id < MAX) {
        return -1;
      }
      if slots[id].id < 0 {
        return 0;
      }
      ghost var w, next0, prev0 := W(), next[..], prev[..];
      LinksInRange(w, next0, prev0, id);
      Del(id);
      ReleaseRep(w, next0, prev0, next[..], prev[..], id);
      nodes, osms := Without(nodes, id), Without(osms, id);
      slots[id] := EmptySlot(slots[id].pkt);
      assert W() == EntityStore.Release(w, id).w;
      return 0;
    }

    /** ly_entity_find_by_db */
    method FindByDb(kind: Kind, d: int) returns (r: int)
      requires Valid()
      ensures Shape(W()) && r == EntityStore.FindByDb(W(), kind, d)
    {
      hide Rep, Shape;
      RepShape(W(), next[..], prev[..]);
      RepListed(W(), next[..], prev[..], kind);
      if d <= 0 || !(kind.Node? || kind.Osm?) {
        return -1;
      }
      var head := if kind.Node? then NODE_HEAD else OSM_HEAD;
      ghost var items := Listed(W(), kind);
      HeadLink(next[..], prev[..], head, items);
      RingHeadOff(next[..], prev[..], head, items);
      assert items[0..] == items;
      var curr := next[head];
      ghost var k := 0;
      while curr != head
        invariant k <= |items| && curr == Stop(head, items, k)
        invariant FindFrom(slots[..], items, k, d) == FindFrom(slots[..], items, 0, d)
        decreases |items| - k
      {
        ItemLinks(next[..], prev[..], head, items, k);
        FindInStep(slots[..], items, k, d);
        if slots[curr].dbId == d {
          return slots[curr].id;
        }
        curr := next[curr];
        k := k + 1;
      }
      StopIsHead(head, items, k);
      FindInEnd(slots[..], items, d);
      return -1;
    }

    /** The part ly_entity_update and ly_entity_enable share: take over a database id. */
    method TakeDb(id: nat, d: int)
      requires Valid() && id < MAX && d >= 0
      modifies this, slots, next, prev
      ensures Valid() && Shape(old(W())) && W() == SetDb(old(W()), id, d)
    {
      hide Rep, Shape;
      RepShape(W(), next[..], prev[..]);
      ghost var w := W();
      var found := FindByDb(slots[id].kind, d);
      if found >= 0 && found != id {
        var _ := Release(found);
      }
      ghost var v := W();
      slots[id] := slots[id].(dbId := d);
      SetDbShape(w, id, d);
      SameRep(v, W(), next[..], prev[..]);
    }

    /** ly_entity_update */
    method Update(id: int, d: int, status: int) returns (code: int)
      requires Valid()
      modifies this, slots, next, prev
      ensures Valid() && Shape(old(W())) && Reply(W(), code) == EntityStore.Update(old(W()), id, d, status)
    {
      hide Rep, Shape;
      RepShape(W(), next[..], prev[..]);
      if !(0 <= id < MAX) {
        return -1;
      }
      ghost var w := W();
      if status >= 0 {
        slots[id] := slots[id].(status := status % 8);
        SetStatusShape(w, id, status);
        SameRep(w, W(), next[..], prev[..]);
      }
      assert W() == SetStatus(w, id, status);
      if d >= 0 {
        TakeDb(id, d);
      }
      return 0;
    }

    /** ly_entity_enable */
    method Enable(id: int, d: int, on: bool) returns (code: int)
      requires Valid()
      modifies this, slots, next, prev
      ensures Valid() && Shape(old(W())) && Reply(W(), code) == EntityStore.Enable(old(W()), id, d, on)
    {
      hide Rep, Shape;
      RepShape(W(), next[..], prev[..]);
      if !(0 <= id < MAX) {
        return -1;
      }
      ghost var w := W();
      slots[id] := slots[id].(enabled := on);
      SetEnabledShape(w, id, on);
      SameRep(w, W(), next[..], prev[..]);
      if d >= 0 {
        TakeDb(id, d);
      }
      return 0;
    }

    /** ly_entity_auth, as a handler uses it: a challenge or secret is stored or dropped. */
    method SetAuth(id: nat, auth: Auth)
      requires Valid() && id < MAX
      modifies slots
      ensures Valid() && W() == EntityStore.SetAuth(old(W()), id, auth)
    {
      ghost var w := W();
      slots[id] := slots[id].(auth := auth);
      SameRep(w, W(), next[..], prev[..]);
    }

    /** ly_entity_data_next: the index of the next entity of the type, or -1. */
    method DataNext(kind: Kind, cursor: int) returns (r: int)
      requires Valid() && Inv(W()) && (cursor > 0 ==> cursor in Listed(W(), kind))
      ensures r == EntityStore.DataNext(Listed(W(), kind), cursor)
    {
      hide Rep, Shape, Inv;
      RepListed(W(), next[..], prev[..], kind);
      if !(kind.Node? || kind.Osm?) {
        return -1;
      }
      var head := if kind.Node? then NODE_HEAD else OSM_HEAD;
      ghost var items := Listed(W(), kind);
      HeadLink(next[..], prev[..], head, items);
      RingHeadOff(next[..], prev[..], head, items);
      if next[head] == head {
        return -1;
      }
      var ent;
      if cursor <= 0 || cursor >= MAX {
        ent := next[head];
      } else {
        ItemLinks(next[..], prev[..], head, items, IndexOf(items, cursor));
        if next[cursor] == head {
          return -1;
        }
        ent := next[cursor];
      }
      ListedId(W(), kind, ent);
      return slots[ent].id;
    }

    /** __query_node_all: the entities queried, in order. */
    method QueryNodeAll() returns (visited: seq<int>)
      requires Valid() && Inv(W()) && 0 !in nodes
      ensures |visited| == |nodes| && forall k: nat | k < |nodes| :: visited[k] == nodes[k]
    {
      hide Rep, Shape, Inv, Valid;
      ValidListed();
      var curr := -1;
      visited := [];
      ghost var k := 0;
      while true
        invariant k <= |nodes| && |visited| == k && forall j: nat | j < k :: visited[j] == nodes[j]
        invariant curr == if k == 0 then -1 else nodes[k - 1]
        invariant curr > 0 ==> curr in nodes
        decreases |nodes| - k
      {
        var r := DataNext(Node, curr);
        if k > 0 {
          IndexOfAt(nodes, k - 1);
          assert nodes[k - 1] in nodes;
        }
        if r == -1 {
          break;
        }
        visited := visited + [r];
        curr := r;
        assert nodes[k] in nodes;
        k := k + 1;
      }
    }

    lemma {:induction false} ValidListed()
      requires Valid() && Inv(W())
      ensures Distinct(nodes) && forall x | x in nodes :: x < MAX
      ensures Listed(W(), Node) == nodes
    {
    }
  }

  lemma {:induction false} RepShape(w: World, next: seq<int>, prev: seq<int>)
    requires Rep(w, next, prev)
    ensures Shape(w) && |w.slots| == MAX
    ensures forall x | x in w.nodes :: x < MAX
    ensures forall x | x in w.osms :: x < MAX
  {
  }

  lemma {:induction false} RepHeads(w: World, next: seq<int>, prev: seq<int>)
    requires Rep(w, next, prev)
    ensures 0 <= next[NODE_HEAD] < LINKS && 0 <= next[OSM_HEAD] < LINKS
  {
    HeadLink(next, prev, NODE_HEAD, w.nodes);
    HeadLink(next, prev, OSM_HEAD, w.osms);
  }

  lemma {:induction false} RepListed(w: World, next: seq<int>, prev: seq<int>, kind: Kind)
    requires Rep(w, next, prev)
    ensures Shape(w)
    ensures kind.Node? || kind.Osm? ==> Ring(next, prev, if kind.Node? then NODE_HEAD else OSM_HEAD, Listed(w, kind))
  {
  }

  lemma {:induction false} RingHeadOff(next: seq<int>, prev: seq<int>, head: nat, items: seq<nat>)
    requires Ring(next, prev, head, items)
    ensures head !in items && Distinct(items)
    ensures forall x | x in items :: x < MAX
  {
  }

  lemma {:induction false} ListedId(w: World, kind: Kind, x: nat)
    requires Inv(w) && x in Listed(w, kind)
    ensures x < MAX && x < |w.slots| && w.slots[x].id == x
  {
    ListsAreExact(w, x);
  }

  lemma {:induction false} InitSameRep(w: World, v: World, next: seq<int>, prev: seq<int>, id: nat, kind: Kind,
          ok: bool)
    requires Rep(w, next, prev) && id < MAX && |v.slots| == MAX
    requires w.slots[id].kind.Unknown? && ((kind.Node? || kind.Osm?) ==> !ok)
    requires v == EntityStore.Init(w, id, kind, ok).w
    ensures Rep(v, next, prev)
  {
    InitShape(w, id, kind, ok);
    SameRep(w, v, next, prev);
  }

  lemma {:induction false} SetStatusShape(w: World, id: nat, status: int)
    requires Shape(w) && id < MAX
    ensures Shape(SetStatus(w, id, status))
  {
  }

  lemma {:induction false} SetEnabledShape(w: World, id: nat, on: bool)
    requires Shape(w) && id < MAX
    ensures Shape(w.(slots := w.slots[id := w.slots[id].(enabled := on)]))
  {
  }
}
