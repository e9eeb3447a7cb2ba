/** The controller's table of connected entities, as values.
  *
  * Inv is what the rest of the controller relies on: a live slot carries its own index,
  * the node and instance lists hold exactly the live slots with data of that type, at
  * most one listed entity of a type has a given database id, and a released slot can be
  * taken again.  Every operation keeps it except ly_entity_init, which keeps it exactly
  * when InitSafe holds.
  */
module EntityStore {

  const MAX: nat := 1024

  /** LY_ENTITY_* */
  datatype Kind = Unknown | Clc | Web | Node | Osm

  /** Whether the secret and the challenge of an AuthConfig are set. */
  datatype Auth = Auth(secret: bool, challenge: bool)

  const NoAuth: Auth := Auth(false, false)

  /** An LYEntity.  status and enabled are the two parts of flag in use; data and pkt say
    * whether the pointers are set. */
  datatype Slot = Slot(fd: int, id: int, dbId: int, kind: Kind, status: nat, enabled: bool,
                       data: bool, auth: Auth, pkt: bool)

  datatype World = World(slots: seq<Slot>, nodes: seq<nat>, osms: seq<nat>, clc: int)

  datatype Reply = Reply(w: World, code: int)

  const OFFLINE: nat := 0
  const ONLINE: nat := 1
  const AUTHENTICATED: nat := 2
  const REGISTERED: nat := 3
  const RUNNING: nat := 4
  const SERVING: nat := 5

  function EmptySlot(pkt: bool): Slot {
    Slot(-1, -1, -1, Unknown, 0, false, false, NoAuth, pkt)
  }

  /** ly_entity_store_init */
  function EmptyStore(): (w: World)
    ensures |w.slots| == MAX
  {
    World(seq(MAX, i => EmptySlot(false)), [], [], 0)
  }

  predicate InRange(id: int) {
    0 <= id < MAX
  }

  predicate Live(w: World, x: int) {
    0 <= x < |w.slots| && w.slots[x].id >= 0
  }

  function Listed(w: World, kind: Kind): seq<nat> {
    match kind
    case Node => w.nodes
    case Osm => w.osms
    case _ => []
  }

  // -------------------------------------------------------------- the operations

  /** The first slot from i on that is free, or MAX. */
  function FirstFree(slots: seq<Slot>, i: nat): (j: nat)
    requires i <= |slots|
    ensures i <= j <= |slots|
    ensures forall k | i <= k < j :: slots[k].id != -1
    ensures j < |slots| ==> slots[j].id == -1
    decreases |slots| - i
  {
    if i == |slots| || slots[i].id == -1 then i else FirstFree(slots, i + 1)
  }

  /** ly_entity_new; ok says whether the packet buffer can be allocated. */
  function New(w: World, fd: int, ok: bool): Reply
    requires |w.slots| == MAX
  {
    var i := FirstFree(w.slots, 0);
    if fd < 0 then Reply(w, -255)
    else if i == MAX then Reply(w, -1)
    else if w.slots[i].data || w.slots[i].auth != NoAuth then Reply(w, -1)
    else if !w.slots[i].pkt && !ok then Reply(w, -1)
    else Reply(w.(slots := w.slots[i := Slot(fd, i, -1, Unknown, 0, false, false, NoAuth, true)]), i)
  }

  /** ly_entity_init; ok says whether the data can be allocated. */
  function Init(w: World, id: int, kind: Kind, ok: bool): Reply
    requires |w.slots| == MAX
  {
    if !InRange(id) then Reply(w, -1)
    else if !w.slots[id].kind.Unknown? then Reply(w, 0)
    else
      var typed := w.(slots := w.slots[id := w.slots[id].(kind := kind)]);
      match kind
      case Node => if ok then Reply(WithData(typed, id).(nodes := [id] + w.nodes), 0) else Reply(typed, -1)
      case Osm => if ok then Reply(WithData(typed, id).(osms := [id] + w.osms), 0) else Reply(typed, -1)
      case Clc => Reply(typed.(clc := id), 0)
      case _ => Reply(typed, 0)
  }

  function WithData(w: World, id: nat): World
    requires id < |w.slots|
  {
    w.(slots := w.slots[id := w.slots[id].(data := true)])
  }

  function Without(s: seq<nat>, x: nat): (r: seq<nat>)
    ensures forall y :: y in r <==> y in s && y != x
    ensures |r| <= |s|
  {
    if s == [] then []
    else if s[0] == x then Without(s[1..], x)
    else [s[0]] + Without(s[1..], x)
  }

  /** ly_entity_release */
  function Release(w: World, id: int): Reply
    requires |w.slots| == MAX
  {
    if !InRange(id) then Reply(w, -1)
    else if w.slots[id].id < 0 then Reply(w, 0)
    else Reply(World(w.slots[id := EmptySlot(w.slots[id].pkt)], Without(w.nodes, id), Without(w.osms, id), w.clc), 0)
  }

  function FindIn(slots: seq<Slot>, list: seq<nat>, d: int): int
    requires forall x | x in list :: x < |slots|
  {
    if list == [] then -1
    else
      assert list[0] in list && forall x | x in list[1..] :: x in list;
      if slots[list[0]].dbId == d then slots[list[0]].id
      else FindIn(slots, list[1..], d)
  }

  /** ly_entity_find_by_db */
  function FindByDb(w: World, kind: Kind, d: int): int
    requires Shape(w)
  {
    if d <= 0 then -1 else FindIn(w.slots, Listed(w, kind), d)
  }

  /** db_id = d, after releasing any other entity of the type that has it. */
  function SetDb(w: World, id: nat, d: int): World
    requires Shape(w) && id < MAX
  {
    if d < 0 then w
    else
      var prior := FindByDb(w, w.slots[id].kind, d);
      var w1 := if prior >= 0 && prior != id then Release(w, prior).w else w;
      w1.(slots := w1.slots[id := w1.slots[id].(dbId := d)])
  }

  function SetStatus(w: World, id: nat, status: int): World
    requires |w.slots| == MAX && id < MAX
  {
    if status < 0 then w else w.(slots := w.slots[id := w.slots[id].(status := status % 8)])
  }

  /** ly_entity_update */
  function Update(w: World, id: int, d: int, status: int): Reply
    requires Shape(w)
  {
    if !InRange(id) then Reply(w, -1) else Reply(SetDb(SetStatus(w, id, status), id, d), 0)
  }

  /** ly_entity_enable */
  function Enable(w: World, id: int, d: int, on: bool): Reply
    requires Shape(w)
  {
    if !InRange(id) then Reply(w, -1)
    else Reply(SetDb(w.(slots := w.slots[id := w.slots[id].(enabled := on)]), id, d), 0)
  }

  /** A handler stores a challenge or a secret in the entity. */
  function SetAuth(w: World, id: nat, auth: Auth): World
    requires |w.slots| == MAX && id < MAX
  {
    w.(slots := w.slots[id := w.slots[id].(auth := auth)])
  }

  /** ly_entity_is_*: the status reaches a level. */
  predicate AtLeast(w: World, id: int, level: nat)
    requires |w.slots| == MAX
  {
    InRange(id) && w.slots[id].status >= level
  }

  // -------------------------------------------------------------- the invariants

  predicate Distinct(s: seq<nat>) {
    forall i: nat, j: nat | i < j < |s| :: s[i] != s[j]
  }

  /** What holds of the lists and ids whatever is called. */
  predicate Shape(w: World) {
    && |w.slots| == MAX
    && (forall x: nat | x < MAX :: w.slots[x].id == x || w.slots[x].id == -1)
    && (forall x | x in w.nodes :: x < MAX && w.slots[x].kind.Node? && w.slots[x].data)
    && (forall x | x in w.osms :: x < MAX && w.slots[x].kind.Osm? && w.slots[x].data)
    && Distinct(w.nodes) && Distinct(w.osms)
  }

  predicate Clean(s: Slot) {
    s.fd == -1 && !s.data && s.auth == NoAuth
  }

  predicate SlotOk(w: World, x: nat)
    requires x < |w.slots|
  {
    && (w.slots[x].id < 0 ==> Clean(w.slots[x]))
    && (w.slots[x].data ==> x in Listed(w, w.slots[x].kind))
  }

  predicate Unique(w: World, list: seq<nat>)
    requires forall x | x in list :: x < |w.slots|
  {
    forall x, y | x in list && y in list && x != y :: w.slots[x].dbId > 0 ==> w.slots[x].dbId != w.slots[y].dbId
  }

  predicate Inv(w: World) {
    && Shape(w)
    && (forall x: nat | x < MAX :: SlotOk(w, x))
    && Unique(w, w.nodes) && Unique(w, w.osms)
  }

  /** Read off Inv: a list holds exactly the live slots with data of its type. */
  lemma {:induction false} ListsAreExact(w: World, x: nat)
    requires Inv(w) && x < MAX
    ensures x in w.nodes <==> Live(w, x) && w.slots[x].kind.Node? && w.slots[x].data
    ensures x in w.osms <==> Live(w, x) && w.slots[x].kind.Osm? && w.slots[x].data
    ensures Live(w, x) ==> w.slots[x].id == x
  {
    assert SlotOk(w, x);
  }

  lemma {:induction false} EmptyInv()
    ensures Inv(EmptyStore())
  {
  }

  // ------------------------------------------------------------ looking entities up

  lemma {:induction false} FindInIs(slots: seq<Slot>, list: seq<nat>, d: int, x: nat)
    requires forall y | y in list :: y < |slots|
    requires x in list && slots[x].dbId == d
    requires forall y | y in list && y != x :: slots[y].dbId != d
    ensures FindIn(slots, list, d) == slots[x].id
  {
    assert forall y | y in list[1..] :: y in list;
    if list[0] != x {
      FindInIs(slots, list[1..], d, x);
    }
  }

  lemma {:induction false} FindInNone(slots: seq<Slot>, list: seq<nat>, d: int)
    requires forall y | y in list :: y < |slots|
    requires forall y | y in list :: slots[y].dbId != d
    ensures FindIn(slots, list, d) == -1
  {
    if list != [] {
      assert forall y | y in list[1..] :: y in list;
      FindInNone(slots, list[1..], d);
    }
  }

  lemma {:induction false} FindInSound(slots: seq<Slot>, list: seq<nat>, d: int)
    requires forall y | y in list :: y < |slots| && (slots[y].id == y || slots[y].id == -1)
    ensures FindIn(slots, list, d) == -1 || (FindIn(slots, list, d) in list && slots[FindIn(slots, list, d)].dbId == d)
  {
    if list != [] {
      assert forall y | y in list[1..] :: y in list;
      FindInSound(slots, list[1..], d);
    }
  }

  /** The lookup finds the one live entity of the type with that id, if there is one. */
  lemma {:induction false} FindByDbIff(w: World, kind: Kind, d: int, x: nat)
    requires Inv(w) && x < MAX && d > 0
    ensures FindByDb(w, kind, d) == x <==> x in Listed(w, kind) && w.slots[x].dbId == d
  {
    var list := Listed(w, kind);
    ListsAreExact(w, x);
    FindInSound(w.slots, list, d);
    if x in list && w.slots[x].dbId == d {
      FindInIs(w.slots, list, d, x);
    }
  }

  // -------------------------------------------------------- what operations preserve

  lemma {:induction false} NewKeeps(w: World, fd: int, ok: bool)
    requires Inv(w)
    ensures Inv(New(w, fd, ok).w)
  {
    var i := FirstFree(w.slots, 0);
    var v := New(w, fd, ok).w;
    if i < MAX {
      ListsAreExact(w, i);
    }
    forall x: nat | x < MAX ensures SlotOk(v, x) {
      assert SlotOk(w, x);
    }
  }

  /** ly_entity_new succeeds exactly when a slot is free and memory is there, and takes
    * the lowest free one. */
  lemma {:induction false} NewTakesLowest(w: World, fd: int, ok: bool)
    requires Inv(w)
    ensures var r := New(w, fd, ok); var i := FirstFree(w.slots, 0);
      && (r.code >= 0 <==> fd >= 0 && i < MAX && (w.slots[i].pkt || ok))
      && (r.code >= 0 ==> r.code == i && !Live(w, i) && Live(r.w, i) && r.w.slots[i].fd == fd)
      && (r.code >= 0 ==> r.w == w.(slots := w.slots[i := r.w.slots[i]]) && !r.w.slots[i].data)
      && (r.code >= 0 ==> r.w.slots[i].kind == Unknown && r.w.slots[i].status == 0 && r.w.slots[i].dbId == -1)
      && (r.code < 0 ==> r.w == w)
  {
    var i := FirstFree(w.slots, 0);
    if i < MAX {
      assert SlotOk(w, i);
    }
  }

  lemma {:induction false} WithoutDistinct(s: seq<nat>, x: nat)
    requires Distinct(s)
    ensures Distinct(Without(s, x))
  {
    if s != [] {
      WithoutDistinct(s[1..], x);
      assert s[0] !in s[1..];
    }
  }

  lemma {:induction false} ReleaseShape(w: World, id: int)
    requires Shape(w)
    ensures Shape(Release(w, id).w)
  {
    if InRange(id) && w.slots[id].id >= 0 {
      WithoutDistinct(w.nodes, id);
      WithoutDistinct(w.osms, id);
    }
  }

  lemma {:induction false} ReleaseKeeps(w: World, id: int)
    requires Inv(w)
    ensures Inv(Release(w, id).w)
    ensures InRange(id) ==> !Live(Release(w, id).w, id)
  {
    ReleaseShape(w, id);
    var v := Release(w, id).w;
    forall x: nat | x < MAX ensures SlotOk(v, x) {
      assert SlotOk(w, x);
    }
  }

  /** The condition under which ly_entity_init keeps the store in order: the caller may
    * not set the type of a released slot, nor of an entity that already carries the
    * database id of a listed one. */
  predicate InitSafe(w: World, id: int, kind: Kind, ok: bool)
    requires |w.slots| == MAX && forall x | x in Listed(w, kind) :: x < MAX
  {
    InRange(id) && w.slots[id].kind.Unknown? && ok && (kind.Node? || kind.Osm?) ==>
      && Live(w, id)
      && (w.slots[id].dbId > 0 ==> forall x | x in Listed(w, kind) :: w.slots[x].dbId != w.slots[id].dbId)
  }

  lemma {:induction false} InitShape(w: World, id: int, kind: Kind, ok: bool)
    requires Shape(w)
    ensures Shape(Init(w, id, kind, ok).w)
  {
  }

  /** ... exactly under which. */
  lemma {:induction false} InitKeepsIff(w: World, id: int, kind: Kind, ok: bool)
    requires Inv(w)
    ensures Inv(Init(w, id, kind, ok).w) <==> InitSafe(w, id, kind, ok)
  {
    hide Shape, Unique, SlotOk, Inv;
    InvShape(w);
    if InRange(id) {
      if InitSafe(w, id, kind, ok) {
        InitSafeKeeps(w, id, kind, ok);
      } else {
        InitUnsafe(w, id, kind);
      }
    }
  }

  lemma {:induction false} InitSafeKeeps(w: World, id: int, kind: Kind, ok: bool)
    requires Inv(w) && InRange(id) && InitSafe(w, id, kind, ok)
    ensures Inv(Init(w, id, kind, ok).w)
  {
    hide Distinct;
    InitShape(w, id, kind, ok);
    var v := Init(w, id, kind, ok).w;
    forall x: nat | x < MAX ensures SlotOk(v, x) {
      assert SlotOk(w, x);
    }
    assert Unique(v, v.nodes) && Unique(v, v.osms);
  }

  lemma {:induction false} InitUnsafe(w: World, id: int, kind: Kind)
    requires Inv(w) && !InitSafe(w, id, kind, true)
    ensures !Inv(Init(w, id, kind, true).w)
  {
    InitShape(w, id, kind, true);
    var v := Init(w, id, kind, true).w;
    assert v.slots[id].data && id in Listed(v, kind);
    if !Live(w, id) {
      assert !SlotOk(v, id);
    } else {
      var x :| x in Listed(w, kind) && w.slots[x].dbId == w.slots[id].dbId;
      assert x in Listed(v, kind) && x != id && v.slots[x].dbId == v.slots[id].dbId;
    }
  }

  /** What becomes of ly_entity_init on the lowest free slot: from then on no connection
    * gets a slot, however many are free. */
  lemma {:induction false} InitOfFreeSlotJams(w: World, kind: Kind, fd: int, ok: bool)
    requires Inv(w) && FirstFree(w.slots, 0) < MAX && (kind.Node? || kind.Osm?)
    requires w.slots[FirstFree(w.slots, 0)].kind.Unknown?
    ensures New(Init(w, FirstFree(w.slots, 0), kind, true).w, fd, ok).code < 0
  {
    var i := FirstFree(w.slots, 0);
    var v := Init(w, i, kind, true).w;
    FirstFreeIs(v.slots, 0, i);
  }

  lemma {:induction false} FirstFreeIs(slots: seq<Slot>, i: nat, j: nat)
    requires i <= j < |slots| && slots[j].id == -1 && forall k | i <= k < j :: slots[k].id != -1
    ensures FirstFree(slots, i) == j
    decreases j - i
  {
    if i < j {
      FirstFreeIs(slots, i + 1, j);
    }
  }

  lemma {:induction false} SetDbShape(w: World, id: nat, d: int)
    requires Shape(w) && id < MAX
    ensures Shape(SetDb(w, id, d))
  {
    if d >= 0 {
      ReleaseShape(w, FindByDb(w, w.slots[id].kind, d));
    }
  }

  /** After the release nobody else of the type has the id. */
  lemma {:induction false} OthersDiffer(w: World, id: nat, d: int, x: nat)
    requires Inv(w) && id < MAX && d > 0
    requires var prior := FindByDb(w, w.slots[id].kind, d);
      var v := if prior >= 0 && prior != id then Release(w, prior).w else w;
      x in Listed(v, w.slots[id].kind) && x != id
    ensures w.slots[x].dbId != d
  {
    var kind := w.slots[id].kind;
    assert x in Listed(w, kind);
    ListsAreExact(w, x);
    FindByDbIff(w, kind, d, x);
  }

  lemma {:induction false} SetDbKeeps(w: World, id: nat, d: int)
    requires Inv(w) && id < MAX
    ensures Inv(SetDb(w, id, d))
  {
    hide Distinct;
    if d >= 0 {
      var kind := w.slots[id].kind;
      var prior := FindByDb(w, kind, d);
      var v := if prior >= 0 && prior != id then Release(w, prior).w else w;
      if prior >= 0 && prior != id {
        ReleaseKeeps(w, prior);
      }
      var r := SetDb(w, id, d);
      SetDbShape(w, id, d);
      forall x: nat | x < MAX ensures SlotOk(r, x) {
        assert SlotOk(v, x);
      }
      if d > 0 {
        forall x | x in Listed(v, kind) && x != id ensures w.slots[x].dbId != d {
          OthersDiffer(w, id, d, x);
        }
      }
      SetDbUnique(v, id, d, r);
    }
  }

  lemma {:induction false} SetDbUnique(v: World, id: nat, d: int, r: World)
    requires Inv(v) && id < MAX && r == v.(slots := v.slots[id := v.slots[id].(dbId := d)])
    requires d > 0 ==> forall x | x in Listed(v, v.slots[id].kind) && x != id :: v.slots[x].dbId != d
    ensures Unique(r, r.nodes) && Unique(r, r.osms)
  {
    ListsAreExact(v, id);
  }

  lemma {:induction false} SameListsKeep(w: World, v: World)
    requires Inv(w) && |v.slots| == MAX && v.nodes == w.nodes && v.osms == w.osms
    requires forall x: nat | x < MAX ::
               v.slots[x] == w.slots[x].(status := v.slots[x].status, enabled := v.slots[x].enabled,
                                         auth := v.slots[x].auth)
    requires forall x: nat | x < MAX :: w.slots[x].id < 0 ==> v.slots[x].auth == w.slots[x].auth
    ensures Inv(v)
  {
    forall x: nat | x < MAX ensures SlotOk(v, x) {
      assert SlotOk(w, x);
    }
  }

  lemma {:induction false} UpdateKeeps(w: World, id: int, d: int, status: int)
    requires Inv(w)
    ensures Inv(Update(w, id, d, status).w)
  {
    if InRange(id) {
      SameListsKeep(w, SetStatus(w, id, status));
      SetDbKeeps(SetStatus(w, id, status), id, d);
    }
  }

  lemma {:induction false} EnableKeeps(w: World, id: int, d: int, on: bool)
    requires Inv(w)
    ensures Inv(Enable(w, id, d, on).w)
  {
    if InRange(id) {
      var v := w.(slots := w.slots[id := w.slots[id].(enabled := on)]);
      SameListsKeep(w, v);
      SetDbKeeps(v, id, d);
    }
  }

  /** v is w but for entity id and the released one, prior. */
  predicate Displaced(w: World, v: World, id: nat, prior: int)
    requires |w.slots| == MAX == |v.slots|
  {
    forall x: nat | x < MAX && x != id ::
      v.slots[x] == if x == prior then EmptySlot(w.slots[x].pkt) else w.slots[x]
  }

  /** After an update with a database id the entity is the one found under it, and no
    * entity but the one found before was released. */
  lemma {:induction false} UpdateTakesOver(w: World, id: nat, d: int, status: int)
    requires Inv(w) && id < MAX && d > 0 && (id in w.nodes || id in w.osms)
    ensures Inv(Update(w, id, d, status).w)
    ensures Live(Update(w, id, d, status).w, id)
    ensures FindByDb(Update(w, id, d, status).w, w.slots[id].kind, d) == id
    ensures Displaced(w, Update(w, id, d, status).w, id, FindByDb(w, w.slots[id].kind, d))
  {
    hide Inv, FindByDb, SetDb, Displaced, SlotOk;
    InvShape(w);
    ListsAreExact(w, id);
    var kind := w.slots[id].kind;
    var s := SetStatus(w, id, status);
    SetStatusFacts(w, id, d, status);
    var v := SetDb(s, id, d);
    SetDbTakesOver(s, id, d);
    InvShape(v);
    assert Displaced(w, v, id, FindByDb(w, kind, d)) by {
      DisplacedFrom(w, s, v, id, FindByDb(w, kind, d));
    }
  }

  lemma {:induction false} InvShape(w: World)
    requires Inv(w)
    ensures Shape(w)
  {
  }

  lemma {:induction false} SetStatusFacts(w: World, id: nat, d: int, status: int)
    requires Inv(w) && id < MAX && d > 0
    ensures var s := SetStatus(w, id, status);
      Inv(s) && s.nodes == w.nodes && s.osms == w.osms && s.slots[id].kind == w.slots[id].kind
    ensures forall kind :: FindByDb(SetStatus(w, id, status), kind, d) == FindByDb(w, kind, d)
  {
    var s := SetStatus(w, id, status);
    SameListsKeep(w, s);
    forall kind ensures FindByDb(s, kind, d) == FindByDb(w, kind, d) {
      FindInSame(w.slots, s.slots, Listed(w, kind), d);
    }
  }

  lemma {:induction false} FindInSame(a: seq<Slot>, b: seq<Slot>, list: seq<nat>, d: int)
    requires |a| == |b| && forall x | x in list :: x < |a| && a[x].dbId == b[x].dbId && a[x].id == b[x].id
    ensures FindIn(a, list, d) == FindIn(b, list, d)
  {
    if list != [] {
      assert forall y | y in list[1..] :: y in list;
      FindInSame(a, b, list[1..], d);
    }
  }

  lemma {:induction false} DisplacedFrom(w: World, s: World, v: World, id: nat, prior: int)
    requires |w.slots| == |s.slots| == |v.slots| == MAX && id < MAX
    requires forall x: nat | x < MAX && x != id :: s.slots[x] == w.slots[x]
    requires Displaced(s, v, id, prior)
    ensures Displaced(w, v, id, prior)
  {
  }

  lemma {:induction false} SetDbTakesOver(w: World, id: nat, d: int)
    requires Inv(w) && id < MAX && d > 0 && (id in w.nodes || id in w.osms)
    ensures Inv(SetDb(w, id, d)) && Live(SetDb(w, id, d), id)
    ensures FindByDb(SetDb(w, id, d), w.slots[id].kind, d) == id
    ensures Displaced(w, SetDb(w, id, d), id, FindByDb(w, w.slots[id].kind, d))
  {
    var kind := w.slots[id].kind;
    ListsAreExact(w, id);
    FindInSound(w.slots, Listed(w, kind), d);
    var v := SetDb(w, id, d);
    SetDbKeeps(w, id, d);
    FindByDbIff(v, kind, d, id);
  }

  /** After enabling or disabling, the flag says so, the entity is the one found under the
    * id, and no entity but the one found before was released. */
  lemma {:induction false} EnableTakesOver(w: World, id: nat, d: int, on: bool)
    requires Inv(w) && id < MAX && d > 0 && (id in w.nodes || id in w.osms)
    ensures Inv(Enable(w, id, d, on).w)
    ensures Live(Enable(w, id, d, on).w, id) && Enable(w, id, d, on).w.slots[id].enabled == on
    ensures FindByDb(Enable(w, id, d, on).w, w.slots[id].kind, d) == id
    ensures Displaced(w, Enable(w, id, d, on).w, id, FindByDb(w, w.slots[id].kind, d))
  {
    hide Inv, FindByDb, Displaced, SlotOk;
    InvShape(w);
    ListsAreExact(w, id);
    var kind := w.slots[id].kind;
    var s := w.(slots := w.slots[id := w.slots[id].(enabled := on)]);
    SetEnabledFacts(w, id, d, on);
    var v := SetDb(s, id, d);
    SetDbTakesOver(s, id, d);
    InvShape(v);
    assert Displaced(w, v, id, FindByDb(w, kind, d)) by {
      DisplacedFrom(w, s, v, id, FindByDb(w, kind, d));
    }
  }

  lemma {:induction false} SetEnabledFacts(w: World, id: nat, d: int, on: bool)
    requires Inv(w) && id < MAX && d > 0
    ensures var s := w.(slots := w.slots[id := w.slots[id].(enabled := on)]);
      Inv(s) && forall kind :: FindByDb(s, kind, d) == FindByDb(w, kind, d)
  {
    var s := w.(slots := w.slots[id := w.slots[id].(enabled := on)]);
    SameListsKeep(w, s);
    forall kind ensures FindByDb(s, kind, d) == FindByDb(w, kind, d) {
      FindInSame(w.slots, s.slots, Listed(w, kind), d);
    }
  }

  // ------------------------------------------------------------------- whole runs

  datatype Op =
    | NewOp(fd: int, ok: bool)
    | InitOp(id: int, kind: Kind, ok: bool)
    | UpdateOp(id: int, d: int, status: int)
    | EnableOp(id: int, d: int, on: bool)
    | AuthOp(id: int, auth: Auth)
    | ReleaseOp(id: int)

  function Do(w: World, op: Op): World
    requires Shape(w)
  {
    match op
    case NewOp(fd, ok) => New(w, fd, ok).w
    case InitOp(id, kind, ok) => Init(w, id, kind, ok).w
    case UpdateOp(id, d, status) => Update(w, id, d, status).w
    case EnableOp(id, d, on) => Enable(w, id, d, on).w
    case AuthOp(id, auth) => if Live(w, id) then SetAuth(w, id, auth) else w
    case ReleaseOp(id) => Release(w, id).w
  }

  predicate Safe(w: World, op: Op)
    requires Shape(w)
  {
    op.InitOp? ==> InitSafe(w, op.id, op.kind, op.ok)
  }

  lemma {:induction false} DoShape(w: World, op: Op)
    requires Shape(w)
    ensures Shape(Do(w, op))
  {
    hide Distinct, New, Init, Release, SetDb;
    match op
    case UpdateOp(id, d, status) => if InRange(id) { SetDbShape(SetStatus(w, id, status), id, d); }
    case EnableOp(id, d, on) =>
      if InRange(id) { SetDbShape(w.(slots := w.slots[id := w.slots[id].(enabled := on)]), id, d); }
    case ReleaseOp(id) => ReleaseShape(w, id);
    case NewOp(fd, ok) => NewShape(w, fd, ok);
    case InitOp(id, kind, ok) => InitShape(w, id, kind, ok);
    case AuthOp(id, auth) =>
  }

  lemma {:induction false} NewShape(w: World, fd: int, ok: bool)
    requires Shape(w)
    ensures Shape(New(w, fd, ok).w)
  {
    hide Distinct;
  }

  /** One operation: the invariant survives exactly when the operation is safe. */
  lemma {:induction false} DoKeepsIff(w: World, op: Op)
    requires Inv(w)
    ensures Inv(Do(w, op)) <==> Safe(w, op)
  {
    match op
    case NewOp(fd, ok) => NewKeeps(w, fd, ok);
    case InitOp(id, kind, ok) => InitKeepsIff(w, id, kind, ok);
    case UpdateOp(id, d, status) => UpdateKeeps(w, id, d, status);
    case EnableOp(id, d, on) => EnableKeeps(w, id, d, on);
    case AuthOp(id, auth) => if Live(w, id) { SameListsKeep(w, SetAuth(w, id, auth)); }
    case ReleaseOp(id) => ReleaseKeeps(w, id);
  }

  ghost predicate SafeRun(w: World, ops: seq<Op>)
    requires Shape(w)
    decreases |ops|
  {
    DoShape(w, if ops == [] then AuthOp(-1, NoAuth) else ops[0]);
    ops == [] || (Safe(w, ops[0]) && SafeRun(Do(w, ops[0]), ops[1..]))
  }

  ghost function RunOps(w: World, ops: seq<Op>): World
    requires Shape(w)
    decreases |ops|
  {
    if ops == [] then w
    else
      DoShape(w, ops[0]);
      RunOps(Do(w, ops[0]), ops[1..])
  }

  /** Every sequence of operations, as long as its initialisations are safe. */
  lemma {:induction false} RunKeeps(w: World, ops: seq<Op>)
    requires Inv(w) && SafeRun(w, ops)
    ensures Inv(RunOps(w, ops))
    decreases |ops|
  {
    if ops != [] {
      DoKeepsIff(w, ops[0]);
      RunKeeps(Do(w, ops[0]), ops[1..]);
    }
  }

  // ------------------------------------------------- walking the list of entities

  /** The position of x in a list. */
  function IndexOf(s: seq<nat>, x: nat): (i: nat)
    requires x in s
    ensures i < |s| && s[i] == x
  {
    if s[0] == x then 0 else 1 + IndexOf(s[1..], x)
  }

  /** ly_entity_data_next on a cursor that is not yet set (-1) or that it set itself: the
    * index of the next entity, or -1 for none. */
  function DataNext(list: seq<nat>, cursor: int): int
    requires cursor > 0 ==> cursor in list
  {
    if list == [] then -1
    else if cursor <= 0 || cursor >= MAX then list[0]
    else if IndexOf(list, cursor) + 1 == |list| then -1
    else list[IndexOf(list, cursor) + 1]
  }

  /** The cursor after n rounds of the loop, -1 once it has ended. */
  function Cursor(list: seq<nat>, n: nat): (c: int)
    ensures c == -1 || (c >= 0 && c in list)
  {
    if n == 0 then -1
    else if n > 1 && Cursor(list, n - 1) == -1 then -1
    else DataNext(list, Cursor(list, n - 1))
  }

  lemma {:induction false} IndexOfAt(s: seq<nat>, i: nat)
    requires Distinct(s) && i < |s|
    ensures IndexOf(s, s[i]) == i
  {
  }

  /** Without slot 0 in the list the loop visits every entity once, in list order. */
  lemma {:induction false} VisitsAll(list: seq<nat>, n: nat)
    requires Distinct(list) && 0 !in list && (forall x | x in list :: x < MAX) && 0 < n
    ensures Cursor(list, n) == if n <= |list| then list[n - 1] else -1
  {
    if n > 1 {
      VisitsAll(list, n - 1);
      if n - 1 <= |list| {
        IndexOfAt(list, n - 2);
      }
    }
  }

  /** 0, 1, ..., k, 0, 1, ... */
  function Round(n: nat, k: nat): (i: nat)
    ensures i <= k
  {
    if n == 0 || Round(n - 1, k) == k then 0 else Round(n - 1, k) + 1
  }

  /** With slot 0 in the list it starts over from there and never ends. */
  lemma {:induction false} NeverEnds(list: seq<nat>, k: nat, n: nat)
    requires Distinct(list) && (forall x | x in list :: x < MAX) && k < |list| && list[k] == 0 && 0 < n
    ensures Cursor(list, n) == list[Round(n - 1, k)]
  {
    if n > 1 {
      NeverEnds(list, k, n - 1);
      var i := Round(n - 2, k);
      IndexOfAt(list, i);
      assert list[i] == 0 <==> i == k;
    }
  }

  /** __query_node_all ends if and only if slot 0 is not in the list. */
  lemma {:induction false} QueryEndsIff(list: seq<nat>)
    requires Distinct(list) && forall x | x in list :: x < MAX
    ensures (exists n: nat :: 0 < n && Cursor(list, n) == -1) <==> 0 !in list
  {
    if 0 in list {
      forall n: nat | 0 < n ensures Cursor(list, n) != -1 {
        NeverEnds(list, IndexOf(list, 0), n);
      }
    } else {
      VisitsAll(list, |list| + 1);
    }
  }

  /** The listener of the controller sits in slot 0; as long as it is not released, no
    * operation puts slot 0 into a list. */
  predicate Listener(w: World)
    requires |w.slots| == MAX
  {
    w.slots[0].id == 0 && w.slots[0].kind.Clc?
  }

  lemma {:induction false} ListenerStarts(fd: int)
    requires fd >= 0
    ensures var r := New(EmptyStore(), fd, true); r.code == 0 && Listener(Init(r.w, 0, Clc, true).w)
  {
    FirstFreeIs(EmptyStore().slots, 0, 0);
  }

  lemma {:induction false} ListenerStays(w: World, op: Op)
    requires Inv(w) && Listener(w) && !(op.ReleaseOp? && op.id == 0)
    ensures Listener(Do(w, op)) && 0 !in w.nodes && 0 !in w.osms
  {
    hide Distinct, Unique, Clean, SlotOk;
    ListsAreExact(w, 0);
    match op
    case UpdateOp(id, d, status) =>
      if InRange(id) {
        var s := SetStatus(w, id, status);
        FindInSound(s.slots, Listed(s, s.slots[id].kind), d);
      }
    case EnableOp(id, d, on) =>
      if InRange(id) {
        var s := w.(slots := w.slots[id := w.slots[id].(enabled := on)]);
        FindInSound(s.slots, Listed(s, s.slots[id].kind), d);
      }
    case _ =>
  }

  /** In every run that starts with the listener in place and does not release it, the
    * node query loop ends. */
  lemma {:induction false} ListenerRuns(w: World, ops: seq<Op>)
    requires Inv(w) && SafeRun(w, ops) && Listener(w)
    requires forall op | op in ops :: !(op.ReleaseOp? && op.id == 0)
    ensures Shape(RunOps(w, ops)) && Listener(RunOps(w, ops))
    ensures exists n: nat :: 0 < n && Cursor(RunOps(w, ops).nodes, n) == -1
    decreases |ops|
  {
    hide Inv, Safe, Do, Listener, Shape, Cursor;
    InvShape(w);
    if ops == [] {
      ListenerStays(w, AuthOp(-1, NoAuth));
      NodesFacts(w);
      QueryEndsIff(w.nodes);
    } else {
      assert ops[0] in ops && forall op | op in ops[1..] :: op in ops;
      DoKeepsIff(w, ops[0]);
      ListenerStays(w, ops[0]);
      ListenerRuns(Do(w, ops[0]), ops[1..]);
    }
  }

  lemma {:induction false} NodesFacts(w: World)
    requires Shape(w)
    ensures Distinct(w.nodes) && forall x | x in w.nodes :: x < MAX
  {
  }
}
