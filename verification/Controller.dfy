/** The event handlers of the controller, over the entity store and the instance table of
  * the database.
  *
  * Agree says that the two tell the same story: a registered instance is SERVING in the
  * database exactly when its entity is, and RUNNING otherwise.  It survives every
  * interleaving of handlers except for four kinds of event, which Disturbs describes
  * exactly.
  *
  * A connection keeps the type of its first packet, but the handlers of the other types
  * run on its later packets all the same.
  */
module Controller {
  import opened EntityStore

  // status of an instance in the database
  const DOMAIN_UNKNOWN: int := 0
  const DOMAIN_RUNNING: int := 4
  const DOMAIN_SERVING: int := 5
  const DOMAIN_DELETE: int := 100
  const DOMAIN_NEED_QUERY: int := 245

  const APP_RUNNING: int := 2000
  const APP_FAILED: int := 2130

  const OSM_UNREGISTERED: int := 7

  /** The store, the first int of the data of each entity, and the status column by id.
    * That int is the tag an instance claims (OSMInfo) or the number of jobs a node is busy
    * with (LYNodeData); the handlers of instances read and write it on either. */
  datatype Ctl = Ctl(w: World, tags: seq<int>, db: map<int, int>)

  /** What db_instance_find_secret finds. */
  datatype Found = NoRow | NoKey | HasKey

  /** What arrives.  Flags such as dbOk say whether the call into the database, the socket
    * or the cipher succeeds; got is the number of fields sscanf finds. */
  datatype Event =
    | Accept(fd: int, ok: bool)
    | WebJob(id: nat)
    | AuthRequest(id: nat, tag: int, found: Found, answered: bool, prepared: bool, sent: bool)
    | AuthReply(id: nat, kind: Kind, verified: bool)
    | Register(id: nat, got: nat, tag: int, status: int, sent: bool, dbOk: bool)
    | Report(id: nat, status: int, dbOk: bool)
    | NodeOnline(id: nat, d: int, auth: Auth, done: bool)
    | NodeRegister(id: nat, d: int, on: bool, dbOk: bool)
    | NodeDisable(d: int)
    | Busy(id: nat, n: int)
    | InstanceInfo(instance: int, status: int, dbOk: bool)
    | Stopped(instance: int)
    | Disconnect(id: nat, dbOk: bool)
    | Close(id: nat)

  /** db_instance_update_status: a missing row is no error, a deleted one stays deleted,
    * and DOMAIN_S_UNKNOWN leaves the status alone. */
  function DbUpdate(db: map<int, int>, d: int, status: int): map<int, int> {
    if d in db && db[d] != DOMAIN_DELETE && status != DOMAIN_UNKNOWN then db[d := status] else db
  }

  /** ly_entity_init as the event loop calls it, before the handlers of a type. */
  function Typed(w: World, id: nat, kind: Kind): World
    requires |w.slots| == MAX
  {
    Init(w, id, kind, true).w
  }

  /** eh_process_osm_auth asks the database while it has no secret; the tag of the request
    * goes into the data then. */
  function Asked(c: Ctl, id: nat, tag: int, found: Found): (r: Ctl)
    requires Shape(c.w) && id < MAX && |c.tags| == MAX
    ensures Shape(r.w) && |r.tags| == MAX
  {
    var a := c.w.slots[id].auth;
    if a.secret then c
    else c.(w := SetAuth(c.w, id, a.(secret := found.HasKey?)), tags := c.tags[id := tag])
  }

  /** ... and on a request it answers, makes a challenge and sends it; nothing in it looks
    * at the type of the entity. */
  function OnAuthRequest(c: Ctl, id: nat, tag: int, found: Found, answered: bool, prepared: bool, sent: bool): Ctl
    requires Shape(c.w) && id < MAX && |c.tags| == MAX
  {
    if !c.w.slots[id].data || (!c.w.slots[id].auth.secret && found.NoRow?) then c
    else
      var c1 := Asked(c, id, tag, found);
      if !answered then c1
      else
        var c2 := c1.(w := SetAuth(c1.w, id, c1.w.slots[id].auth.(challenge := prepared)));
        if !prepared || !sent then c2 else c2.(w := Update(c2.w, id, c2.tags[id], ONLINE).w)
  }

  /** ... and on a reply, where eh_process_node_auth does the same. */
  function OnAuthReply(c: Ctl, id: nat, verified: bool): Ctl
    requires Shape(c.w) && id < MAX
  {
    if verified && !AtLeast(c.w, id, AUTHENTICATED) then c.(w := Update(c.w, id, -1, AUTHENTICATED).w) else c
  }

  /** eh_process_osm_register, which does not look at the type either. */
  function OnRegister(c: Ctl, id: nat, got: nat, tag: int, status: int, sent: bool, dbOk: bool): Ctl
    requires Shape(c.w) && id < MAX && |c.tags| == MAX
  {
    if AtLeast(c.w, id, REGISTERED) || !c.w.slots[id].data then c
    else
      var c1 := if got >= 1 then c.(tags := c.tags[id := tag]) else c;
      if got < 3 || !AtLeast(c.w, id, AUTHENTICATED) || status != OSM_UNREGISTERED || !sent || !dbOk then c1
      else c1.(db := DbUpdate(c.db, tag, DOMAIN_RUNNING), w := Update(c.w, id, tag, REGISTERED).w)
  }

  /** The status a report asks for, 0 for none. */
  function Reported(w: World, id: nat, status: int): int
    requires Shape(w)
  {
    if status == APP_RUNNING then (if AtLeast(w, id, SERVING) then 0 else DOMAIN_SERVING)
    else if APP_RUNNING < status <= APP_FAILED then
      (if !AtLeast(w, id, RUNNING) || AtLeast(w, id, SERVING) then DOMAIN_RUNNING else 0)
    else 0
  }

  /** eh_process_osm_report; nothing in it looks at the type of the entity. */
  function OnReport(c: Ctl, id: nat, status: int, dbOk: bool): Ctl
    requires Shape(c.w) && id < MAX
  {
    var s := Reported(c.w, id, status);
    if s == 0 || !dbOk then c
    else
      c.(db := DbUpdate(c.db, c.w.slots[id].dbId, s),
         w := Update(c.w, id, -1, if s == DOMAIN_SERVING then SERVING else RUNNING).w)
  }

  /** A node authenticates itself (eh_process_node_auth), or a new one registers; auth is
    * what it then has of a secret and a challenge, done whether it gets to the end. */
  function OnNodeOnline(c: Ctl, id: nat, d: int, auth: Auth, done: bool): Ctl
    requires Shape(c.w) && id < MAX
  {
    if !c.w.slots[id].data then c
    else
      var w := SetAuth(c.w, id, auth);
      c.(w := if done then Update(w, id, d, ONLINE).w else w)
  }

  lemma {:induction false} EnableShape(w: World, id: nat, d: int, on: bool)
    requires Shape(w) && id < MAX
    ensures Shape(Enable(w, id, d, on).w)
  {
    SetDbShape(w.(slots := w.slots[id := w.slots[id].(enabled := on)]), id, d);
  }

  /** __node_xml_register for a node whose tag d is found in the database; dbOk says whether
    * its row in the table of nodes can be updated. */
  function OnNodeRegister(c: Ctl, id: nat, d: int, on: bool, dbOk: bool): (r: Ctl)
    requires Shape(c.w) && id < MAX
  {
    if AtLeast(c.w, id, REGISTERED) || !c.w.slots[id].data || d <= 0 || !AtLeast(c.w, id, AUTHENTICATED) then c
    else
      EnableShape(c.w, id, d, on);
      var w := Enable(c.w, id, d, on).w;
      c.(w := if dbOk then Update(w, id, d, REGISTERED).w else w)
  }

  /** __job_node_disable */
  function OnNodeDisable(c: Ctl, d: int): Ctl
    requires Shape(c.w)
  {
    var id := FindByDb(c.w, Node, d);
    if AtLeast(c.w, id, ONLINE) then c.(w := Enable(c.w, id, -1, false).w) else c
  }

  /** __instance_info_update */
  function OnInstanceInfo(c: Ctl, instance: int, status: int, dbOk: bool): Ctl
    requires Shape(c.w)
  {
    if !dbOk then c
    else
      var s := if AtLeast(c.w, FindByDb(c.w, Osm, instance), REGISTERED) then DOMAIN_UNKNOWN else status;
      c.(db := DbUpdate(c.db, instance, s))
  }

  /** The release in __process_node_xml_response when an instance was stopped. */
  function OnStopped(c: Ctl, instance: int): Ctl
    requires Shape(c.w)
  {
    var id := FindByDb(c.w, Osm, instance);
    if id > 0 then c.(w := Release(c.w, id).w) else c
  }

  /** The connection is gone: the status has to be asked for, and the slot is freed. */
  function OnDisconnect(c: Ctl, id: nat, dbOk: bool): Ctl
    requires Shape(c.w) && id < MAX
  {
    var c1 := if c.w.slots[id].kind.Osm? && dbOk
              then c.(db := DbUpdate(c.db, c.w.slots[id].dbId, DOMAIN_NEED_QUERY)) else c;
    c1.(w := Release(c.w, id).w)
  }

  /** The entity an event comes from, if it comes from one. */
  function Source(e: Event): (r: int)
    ensures r >= -1
  {
    match e
    case WebJob(id) => id
    case AuthRequest(id, _, _, _, _, _) => id
    case AuthReply(id, _, _) => id
    case Register(id, _, _, _, _, _) => id
    case Report(id, _, _) => id
    case NodeOnline(id, _, _, _) => id
    case NodeRegister(id, _, _, _) => id
    case Disconnect(id, _) => id
    case Close(id) => id
    case _ => -1
  }

  /** One event.  Events of entities that are not connected, or that are the listener, do
    * not occur. */
  function Step(c: Ctl, e: Event): Ctl
    requires Shape(c.w) && |c.tags| == MAX
  {
    if Source(e) >= 0 && (!Live(c.w, Source(e)) || c.w.slots[Source(e)].kind.Clc?) then c
    else
      match e
      case Accept(fd, ok) => c.(w := New(c.w, fd, ok).w)
      case WebJob(id) => Received(c, id, Web)
      case AuthRequest(id, tag, found, answered, prepared, sent) =>
        OnAuthRequest(Received(c, id, Osm), id, tag, found, answered, prepared, sent)
      case AuthReply(id, kind, verified) => OnAuthReply(Received(c, id, kind), id, verified)
      case Register(id, got, tag, status, sent, dbOk) =>
        OnRegister(Received(c, id, Osm), id, got, tag, status, sent, dbOk)
      case Report(id, status, dbOk) => OnReport(c, id, status, dbOk)
      case NodeOnline(id, d, auth, done) => OnNodeOnline(Received(c, id, Node), id, d, auth, done)
      case NodeRegister(id, d, on, dbOk) => OnNodeRegister(Received(c, id, Node), id, d, on, dbOk)
      case NodeDisable(d) => OnNodeDisable(c, d)
      case Busy(id, n) => if id < MAX then c.(tags := c.tags[id := n]) else c
      case InstanceInfo(instance, status, dbOk) => OnInstanceInfo(c, instance, status, dbOk)
      case Stopped(instance) => OnStopped(c, instance)
      case Disconnect(id, dbOk) => OnDisconnect(c, id, dbOk)
      case Close(id) => c.(w := Release(c.w, id).w)
  }

  /** A packet of a type that goes with a kind of entity came in; new data is zeroed. */
  function Received(c: Ctl, id: nat, kind: Kind): (r: Ctl)
    requires Shape(c.w) && id < MAX && |c.tags| == MAX
    ensures Shape(r.w) && |r.tags| == MAX && r.db == c.db
  {
    InitShape(c.w, id, kind, true);
    c.(w := Typed(c.w, id, kind), tags := if c.w.slots[id].kind.Unknown? then c.tags[id := 0] else c.tags)
  }

  // -------------------------------------------------------------- the invariants

  predicate EntityOk(s: Slot) {
    && s.status < 8
    && (s.id >= 0 && (s.kind.Node? || s.kind.Osm?) ==> s.data)
    && (!(s.kind.Node? || s.kind.Osm?) ==> s.dbId <= 0)
  }

  predicate CtlInv(c: Ctl) {
    && Inv(c.w) && |c.tags| == MAX
    && forall x: nat | x < MAX :: EntityOk(c.w.slots[x])
  }

  /** The row of an instance that is there and not marked for deletion. */
  predicate Row(db: map<int, int>, d: int) {
    d > 0 && d in db && db[d] != DOMAIN_DELETE
  }

  predicate AgreeSlot(s: Slot, db: map<int, int>) {
    s.status >= REGISTERED && Row(db, s.dbId) ==>
      db[s.dbId] == if s.status >= SERVING then DOMAIN_SERVING else DOMAIN_RUNNING
  }

  predicate Agree(c: Ctl)
    requires Shape(c.w)
  {
    forall x | x in c.w.osms :: AgreeSlot(c.w.slots[x], c.db)
  }

  /** The events that set store and database at odds: a report by an entity that is not an
    * instance but has the database id of a registered one that is not what it reports; a
    * registration as an instance by such an entity under the id of an instance that serves;
    * one by an instance under a negative tag, which the store takes for "no tag", when the
    * row of its earlier id is not RUNNING; and one as a node by an instance, under a
    * number whose row in the table of instances is not RUNNING. */
  predicate Disturbs(c: Ctl, e: Event)
    requires Shape(c.w)
  {
    match e
    case Report(id, status, dbOk) =>
      && Live(c.w, id) && !c.w.slots[id].kind.Clc? && !c.w.slots[id].kind.Osm? && dbOk
      && Reported(c.w, id, status) != 0 && Row(c.db, c.w.slots[id].dbId)
      && exists x :: x in c.w.osms && Contradicts(c.w.slots[x], c.w.slots[id].dbId, Reported(c.w, id, status))
    case Register(id, got, tag, status, sent, dbOk) =>
      && Live(c.w, id) && got >= 3 && sent && dbOk && status == OSM_UNREGISTERED
      && AUTHENTICATED <= c.w.slots[id].status < REGISTERED
      && Clashes(c, id, tag)
    case NodeRegister(id, d, on, dbOk) =>
      && Live(c.w, id) && dbOk && c.w.slots[id].kind.Osm?
      && AUTHENTICATED <= c.w.slots[id].status < REGISTERED
      && Row(c.db, d) && c.db[d] != DOMAIN_RUNNING
    case _ => false
  }

  /** A registration of this entity under this tag contradicts the row it leaves, or an
    * instance that serves. */
  predicate Clashes(c: Ctl, id: nat, tag: int)
    requires Shape(c.w) && id < MAX
  {
    match c.w.slots[id].kind
    case Osm => tag < 0 && Row(c.db, c.w.slots[id].dbId) && c.db[c.w.slots[id].dbId] != DOMAIN_RUNNING
    case Node => Row(c.db, tag) && exists x :: x in c.w.osms && Contradicts(c.w.slots[x], tag, DOMAIN_RUNNING)
    case _ => false
  }

  /** The instance is registered, and a row with this status is not its. */
  predicate Contradicts(s: Slot, d: int, status: int) {
    s.dbId == d && s.status >= REGISTERED && (s.status >= SERVING <==> status != DOMAIN_SERVING)
  }

  // -------------------------------------------------- what a handler does to the store

  /** v.osms are entities of w, unchanged but for id. */
  predicate OthersKept(w: World, v: World, id: nat)
    requires Shape(w) && Shape(v)
  {
    forall x | x in v.osms && x != id :: x in w.osms && v.slots[x] == w.slots[x]
  }

  lemma {:induction false} UpdateOnSlot(w: World, id: nat, d: int, status: int)
    requires Inv(w) && id < MAX && status >= 0
    ensures var v := Update(w, id, d, status).w;
      && Inv(v) && OthersKept(w, v, id)
      && v.slots[id] == w.slots[id].(status := status % 8, dbId := if d >= 0 then d else w.slots[id].dbId)
      && (id in v.osms <==> id in w.osms) && (d < 0 ==> v.osms == w.osms)
    ensures d > 0 && w.slots[id].kind.Osm? ==>
      forall x | x in Update(w, id, d, status).w.osms && x != id :: w.slots[x].dbId != d
    ensures forall x: nat | x < MAX && x != id ::
      Update(w, id, d, status).w.slots[x] in {w.slots[x], EmptySlot(w.slots[x].pkt)}
  {
    hide Distinct, Clean, Unique;
    UpdateKeeps(w, id, d, status);
    var s := SetStatus(w, id, status);
    SameListsKeep(w, s);
    if d > 0 && w.slots[id].kind.Osm? {
      forall x | x in SetDb(s, id, d).osms && x != id ensures w.slots[x].dbId != d {
        OthersDiffer(s, id, d, x);
      }
    }
  }

  lemma {:induction false} EnableOnSlot(w: World, id: nat, d: int, on: bool)
    requires Inv(w) && id < MAX
    ensures var v := Enable(w, id, d, on).w;
      && Inv(v) && OthersKept(w, v, id)
      && v.slots[id] == w.slots[id].(enabled := on, dbId := if d >= 0 then d else w.slots[id].dbId)
      && (id in v.osms <==> id in w.osms)
    ensures forall x: nat | x < MAX && x != id ::
      Enable(w, id, d, on).w.slots[x] in {w.slots[x], EmptySlot(w.slots[x].pkt)}
  {
    hide Distinct, Clean, Unique;
    EnableKeeps(w, id, d, on);
  }

  /** The database row of d was written, for d the id of entity id or of nobody listed. */
  lemma {:induction false} AgreeAfter(c: Ctl, v: World, id: nat, db: map<int, int>, d: int)
    requires Inv(c.w) && Inv(v) && Agree(c) && id < MAX && OthersKept(c.w, v, id)
    requires forall k: int | k != d :: (k in db <==> k in c.db) && (k in db ==> db[k] == c.db[k])
    requires forall x | x in v.osms && x != id && d > 0 :: v.slots[x].dbId != d
    requires id in v.osms ==> AgreeSlot(v.slots[id], db)
    ensures forall x | x in v.osms :: AgreeSlot(v.slots[x], db)
  {
    hide Distinct, Unique, SlotOk;
    forall x | x in v.osms && x != id ensures AgreeSlot(v.slots[x], db) {
      assert AgreeSlot(c.w.slots[x], c.db);
    }
  }

  lemma {:induction false} DbUpdateElsewhere(db: map<int, int>, d: int, status: int)
    ensures forall k: int | k != d :: (k in DbUpdate(db, d, status) <==> k in db)
                                   && (k in db ==> DbUpdate(db, d, status)[k] == db[k])
  {
  }

  lemma {:induction false} SlotsStayOk(c: Ctl, v: World, id: nat)
    requires CtlInv(c) && Inv(v) && id < MAX && EntityOk(v.slots[id])
    requires forall x: nat | x < MAX && x != id :: v.slots[x] in {c.w.slots[x], EmptySlot(c.w.slots[x].pkt)}
    ensures CtlInv(c.(w := v))
  {
    hide Distinct, Unique, SlotOk;
    forall x: nat | x < MAX ensures EntityOk(v.slots[x]) {
      assert EntityOk(c.w.slots[x]);
    }
  }

  lemma {:induction false} CtlFacts(c: Ctl, id: nat)
    requires CtlInv(c) && id < MAX
    ensures Shape(c.w) && Inv(c.w) && |c.tags| == MAX && EntityOk(c.w.slots[id])
    ensures |c.w.slots| == MAX
  {
  }

  /** ly_entity_init in the event loop. */
  lemma {:induction false} ReceivedKeeps(c: Ctl, id: nat, kind: Kind)
    requires CtlInv(c) && Agree(c) && id < MAX && Live(c.w, id) && (kind.Web? || kind.Node? || kind.Osm?)
    ensures var t := Received(c, id, kind);
      && CtlInv(t) && Agree(t) && Live(t.w, id) && t.db == c.db
      && t.w.slots[id] == if c.w.slots[id].kind.Unknown? then c.w.slots[id].(kind := kind, data := !kind.Web?)
                          else c.w.slots[id]
  {
    hide Distinct, Unique, Clean;
    CtlFacts(c, id);
    InitKeepsIff(c.w, id, kind, true);
    assert SlotOk(c.w, id);
    var t := Received(c, id, kind);
    SlotsStayOk(c, t.w, id);
    forall x | x in t.w.osms ensures AgreeSlot(t.w.slots[x], t.db) {
      assert x != id ==> AgreeSlot(c.w.slots[x], c.db);
    }
  }

  /** An update that leaves the entity below REGISTERED, or one of no instance. */
  lemma {:induction false} StatusKeeps(c: Ctl, id: nat, d: int, status: int)
    requires CtlInv(c) && Agree(c) && id < MAX && 0 <= status < 8
    requires status < REGISTERED || !c.w.slots[id].kind.Osm?
    requires d <= 0 || c.w.slots[id].kind.Osm? || c.w.slots[id].kind.Node?
    ensures CtlInv(c.(w := Update(c.w, id, d, status).w)) && Agree(c.(w := Update(c.w, id, d, status).w))
  {
    hide Distinct, Unique, Clean, Update;
    CtlFacts(c, id);
    UpdateOnSlot(c.w, id, d, status);
    var v := Update(c.w, id, d, status).w;
    SlotsStayOk(c, v, id);
    ListsAreExact(v, id);
    AgreeAfter(c, v, id, c.db, 0);
  }

  lemma {:induction false} AuthKept(c: Ctl, id: nat, auth: Auth)
    requires CtlInv(c) && Agree(c) && id < MAX && Live(c.w, id)
    ensures var c1 := c.(w := SetAuth(c.w, id, auth));
      && CtlInv(c1) && Agree(c1) && c1.w.slots[id] == c.w.slots[id].(auth := auth)
      && forall x: nat | x < MAX && x != id :: c1.w.slots[x] == c.w.slots[x]
  {
    hide Distinct, Unique, Clean;
    CtlFacts(c, id);
    var v := SetAuth(c.w, id, auth);
    SameListsKeep(c.w, v);
    SlotsStayOk(c, v, id);
    forall x | x in v.osms ensures AgreeSlot(v.slots[x], c.db) {
      assert AgreeSlot(c.w.slots[x], c.db);
    }
  }

  lemma {:induction false} TagKept(c: Ctl, id: nat, tag: int)
    requires CtlInv(c) && Agree(c) && id < MAX
    ensures CtlInv(c.(tags := c.tags[id := tag])) && Agree(c.(tags := c.tags[id := tag]))
  {
  }

  lemma {:induction false} DataIsListed(w: World, id: nat)
    requires Inv(w) && id < MAX && w.slots[id].data
    ensures w.slots[id].kind.Node? || w.slots[id].kind.Osm?
  {
    assert SlotOk(w, id);
  }

  lemma {:induction false} AskedKeeps(c: Ctl, id: nat, tag: int, found: Found)
    requires CtlInv(c) && Agree(c) && id < MAX && Live(c.w, id)
    ensures var c1 := Asked(c, id, tag, found);
      && CtlInv(c1) && Agree(c1) && Live(c1.w, id)
      && c1.w.slots[id] == c.w.slots[id].(auth := c1.w.slots[id].auth)
      && forall x: nat | x < MAX && x != id :: c1.w.slots[x] == c.w.slots[x]
  {
    hide CtlInv, Agree, SetAuth, Inv, Shape;
    CtlFacts(c, id);
    if !c.w.slots[id].auth.secret {
      var auth := c.w.slots[id].auth.(secret := found.HasKey?);
      AuthKept(c, id, auth);
      CtlFacts(c.(w := SetAuth(c.w, id, auth)), id);
      TagKept(c.(w := SetAuth(c.w, id, auth)), id, tag);
      CtlFacts(c.(w := SetAuth(c.w, id, auth), tags := c.tags[id := tag]), id);
    }
  }

  lemma {:induction false} AuthRequestKeeps(c: Ctl, id: nat, tag: int, found: Found, answered: bool, prepared: bool,
          sent: bool)
    requires CtlInv(c) && Agree(c) && id < MAX && Live(c.w, id)
    ensures var r := OnAuthRequest(c, id, tag, found, answered, prepared, sent);
      CtlInv(r) && Shape(r.w) && Agree(r)
  {
    hide CtlInv, Agree, Update, Shape, Inv, Asked, SetAuth;
    CtlFacts(c, id);
    if c.w.slots[id].data && (c.w.slots[id].auth.secret || !found.NoRow?) {
      DataIsListed(c.w, id);
      AskedKeeps(c, id, tag, found);
      var c1 := Asked(c, id, tag, found);
      CtlFacts(c1, id);
      var auth := c1.w.slots[id].auth.(challenge := prepared);
      AuthKept(c1, id, auth);
      var c2 := c1.(w := SetAuth(c1.w, id, auth));
      CtlFacts(c2, id);
      StatusKeeps(c2, id, c2.tags[id], ONLINE);
    }
    CtlFacts(OnAuthRequest(c, id, tag, found, answered, prepared, sent), id);
  }

  lemma {:induction false} AuthReplyKeeps(c: Ctl, id: nat, verified: bool)
    requires CtlInv(c) && Agree(c) && id < MAX
    ensures CtlInv(OnAuthReply(c, id, verified)) && Agree(OnAuthReply(c, id, verified))
  {
    hide Agree, Update, Shape, Inv;
    CtlFacts(c, id);
    StatusKeeps(c, id, -1, AUTHENTICATED);
  }

  predicate Registers(c: Ctl, id: nat, got: nat, status: int, sent: bool, dbOk: bool)
    requires Shape(c.w) && id < MAX
  {
    && got >= 3 && sent && dbOk && status == OSM_UNREGISTERED
    && c.w.slots[id].data
    && AUTHENTICATED <= c.w.slots[id].status < REGISTERED
  }

  /** A registration keeps agreement exactly when it does not disturb. */
  lemma {:induction false} RegisterKeepsIff(c: Ctl, id: nat, got: nat, tag: int, status: int, sent: bool, dbOk: bool)
    requires CtlInv(c) && Agree(c) && id < MAX && Live(c.w, id)
    ensures var c' := OnRegister(c, id, got, tag, status, sent, dbOk);
      && CtlInv(c')
      && (Agree(c') <==> !Disturbs(c, Register(id, got, tag, status, sent, dbOk)))
  {
    hide Agree, Update, Shape, Inv, CtlInv;
    CtlFacts(c, id);
    TagKept(c, id, tag);
    if Registers(c, id, got, status, sent, dbOk) {
      DataIsListed(c.w, id);
      if c.w.slots[id].kind.Osm? {
        RegisteredIff(c, id, tag);
      } else {
        NodeRegisteredIff(c, id, tag);
      }
      RegistersBoth(c, id, got, tag, status, sent, dbOk);
      CtlFacts(OnRegister(c, id, got, tag, status, sent, dbOk), id);
    } else {
      RegistersNot(c, id, got, tag, status, sent, dbOk);
    }
  }

  lemma {:induction false} RegistersBoth(c: Ctl, id: nat, got: nat, tag: int, status: int, sent: bool, dbOk: bool)
    requires CtlInv(c) && Agree(c) && id < MAX && Live(c.w, id)
    requires Registers(c, id, got, status, sent, dbOk)
    requires var c1 := c.(db := DbUpdate(c.db, tag, DOMAIN_RUNNING), w := Update(c.w, id, tag, REGISTERED).w);
      CtlInv(c1)
    ensures var c1 := c.(db := DbUpdate(c.db, tag, DOMAIN_RUNNING), w := Update(c.w, id, tag, REGISTERED).w);
      var c' := OnRegister(c, id, got, tag, status, sent, dbOk);
      CtlInv(c') && (Agree(c') <==> Agree(c1))
    ensures Disturbs(c, Register(id, got, tag, status, sent, dbOk))
      <==> Clashes(c, id, tag)
  {
    hide Update, DbUpdate, Inv, Clashes;
  }

  lemma {:induction false} RegistersNot(c: Ctl, id: nat, got: nat, tag: int, status: int, sent: bool, dbOk: bool)
    requires CtlInv(c) && Agree(c) && id < MAX && Live(c.w, id)
    requires !Registers(c, id, got, status, sent, dbOk)
    requires CtlInv(c.(tags := c.tags[id := tag])) && Agree(c.(tags := c.tags[id := tag]))
    ensures CtlInv(OnRegister(c, id, got, tag, status, sent, dbOk))
    ensures Agree(OnRegister(c, id, got, tag, status, sent, dbOk))
    ensures !Disturbs(c, Register(id, got, tag, status, sent, dbOk))
  {
    hide Update, DbUpdate, Inv, Agree;
    CtlFacts(c, id);
  }

  lemma {:induction false} RegisteredIff(c: Ctl, id: nat, tag: int)
    requires CtlInv(c) && Agree(c) && id < MAX && c.w.slots[id].data && c.w.slots[id].kind.Osm?
    ensures var c1 := c.(db := DbUpdate(c.db, tag, DOMAIN_RUNNING), w := Update(c.w, id, tag, REGISTERED).w);
      && CtlInv(c1)
      && (Agree(c1) <==> !Clashes(c, id, tag))
  {
    hide Distinct, Unique, Clean, Update;
    CtlFacts(c, id);
    UpdateOnSlot(c.w, id, tag, REGISTERED);
    var v := Update(c.w, id, tag, REGISTERED).w;
    var db := DbUpdate(c.db, tag, DOMAIN_RUNNING);
    SlotsStayOk(c, v, id);
    ListsAreExact(v, id);
    ListsAreExact(c.w, id);
    assert SlotOk(c.w, id);
    DbUpdateElsewhere(c.db, tag, DOMAIN_RUNNING);
    if AgreeSlot(v.slots[id], db) {
      AgreeAfter(c, v, id, db, tag);
    }
  }

  /** The registration of a node as an instance. */
  lemma {:induction false} NodeRegisteredIff(c: Ctl, id: nat, tag: int)
    requires CtlInv(c) && Agree(c) && id < MAX && c.w.slots[id].kind.Node?
    ensures var c1 := c.(db := DbUpdate(c.db, tag, DOMAIN_RUNNING), w := Update(c.w, id, tag, REGISTERED).w);
      && CtlInv(c1)
      && (Agree(c1) <==> !Clashes(c, id, tag))
  {
    hide Distinct, Unique, Clean, Update;
    CtlFacts(c, id);
    UpdateOnSlot(c.w, id, tag, REGISTERED);
    OsmsStay(c.w, id, tag, REGISTERED);
    var v := Update(c.w, id, tag, REGISTERED).w;
    SlotsStayOk(c, v, id);
    ListsAreExact(c.w, id);
    WrittenByOther(c, v, id, tag, DOMAIN_RUNNING);
  }

  lemma {:induction false} OsmsStay(w: World, id: nat, d: int, status: int)
    requires Inv(w) && id < MAX && !w.slots[id].kind.Osm?
    ensures forall x | x in w.osms :: x in Update(w, id, d, status).w.osms
  {
    hide Distinct, Unique, SlotOk;
    var s := SetStatus(w, id, status);
    if d > 0 && w.slots[id].kind.Node? {
      FindInSound(s.slots, s.nodes, d);
    }
  }

  /** An entity of an instance gets another status or number. */
  lemma {:induction false} UpdatedIff(c: Ctl, id: nat, d: int, status: int)
    requires CtlInv(c) && Agree(c) && id in c.w.osms && 0 <= status < 8
    ensures var c1 := c.(w := Update(c.w, id, d, status).w);
      CtlInv(c1) && (Agree(c1) <==> AgreeSlot(c1.w.slots[id], c.db))
  {
    hide Distinct, Unique, Clean, Update;
    CtlFacts(c, id);
    UpdateOnSlot(c.w, id, d, status);
    var v := Update(c.w, id, d, status).w;
    SlotsStayOk(c, v, id);
    if AgreeSlot(v.slots[id], c.db) {
      AgreeAfter(c, v, id, c.db, 0);
    }
  }

  /** A report keeps agreement exactly when it does not disturb. */
  lemma {:induction false} ReportKeepsIff(c: Ctl, id: nat, status: int, dbOk: bool)
    requires CtlInv(c) && Agree(c) && id < MAX && Live(c.w, id) && !c.w.slots[id].kind.Clc?
    ensures var c' := OnReport(c, id, status, dbOk);
      CtlInv(c') && (Agree(c') <==> !Disturbs(c, Report(id, status, dbOk)))
  {
    hide Distinct, Unique, Clean, Update;
    CtlFacts(c, id);
    var s := Reported(c.w, id, status);
    if s != 0 && dbOk {
      var d := c.w.slots[id].dbId;
      var level := if s == DOMAIN_SERVING then SERVING else RUNNING;
      UpdateOnSlot(c.w, id, -1, level);
      var v := Update(c.w, id, -1, level).w;
      var db := DbUpdate(c.db, d, s);
      SlotsStayOk(c, v, id);
      ListsAreExact(c.w, id);
      ListsAreExact(v, id);
      DbUpdateElsewhere(c.db, d, s);
      if c.w.slots[id].kind.Osm? {
        ReportOfInstance(c, v, id, s);
      } else {
        WrittenByOther(c, v, id, d, s);
      }
    }
  }

  lemma {:induction false} ReportOfInstance(c: Ctl, v: World, id: nat, s: int)
    requires CtlInv(c) && Agree(c) && id < MAX && id in c.w.osms && Inv(v) && OthersKept(c.w, v, id)
    requires s == DOMAIN_SERVING || s == DOMAIN_RUNNING
    requires v.slots[id] == c.w.slots[id].(status := if s == DOMAIN_SERVING then SERVING else RUNNING)
    ensures Agree(c.(db := DbUpdate(c.db, c.w.slots[id].dbId, s), w := v))
  {
    hide Distinct, Clean;
    var d := c.w.slots[id].dbId;
    DbUpdateElsewhere(c.db, d, s);
    AgreeAfter(c, v, id, DbUpdate(c.db, d, s), d);
  }

  /** Row d is written by an entity that is no instance. */
  lemma {:induction false} WrittenByOther(c: Ctl, v: World, id: nat, d: int, s: int)
    requires CtlInv(c) && Agree(c) && id < MAX && !c.w.slots[id].kind.Osm? && Inv(v) && OthersKept(c.w, v, id)
    requires s == DOMAIN_SERVING || s == DOMAIN_RUNNING
    requires id !in v.osms && id !in c.w.osms && forall x | x in c.w.osms :: x in v.osms
    ensures Agree(c.(db := DbUpdate(c.db, d, s), w := v)) <==>
      !(Row(c.db, d) && exists x :: x in c.w.osms && Contradicts(c.w.slots[x], d, s))
  {
    hide Distinct, Clean, Unique, SlotOk;
    var db := DbUpdate(c.db, d, s);
    forall x | x in c.w.osms
      ensures x in v.osms && (AgreeSlot(v.slots[x], db) <==> !(Row(c.db, d) && Contradicts(c.w.slots[x], d, s)))
    {
      assert AgreeSlot(c.w.slots[x], c.db);
    }
  }

  lemma {:induction false} InstanceInfoKeeps(c: Ctl, instance: int, status: int, dbOk: bool)
    requires CtlInv(c) && Agree(c)
    ensures CtlInv(OnInstanceInfo(c, instance, status, dbOk)) && Agree(OnInstanceInfo(c, instance, status, dbOk))
  {
    hide Distinct, Clean, Unique, FindByDb;
    var c' := OnInstanceInfo(c, instance, status, dbOk);
    forall x | x in c.w.osms ensures AgreeSlot(c.w.slots[x], c'.db) {
      assert AgreeSlot(c.w.slots[x], c.db);
      if instance > 0 {
        FindByDbIff(c.w, Osm, instance, x);
      }
    }
  }

  lemma {:induction false} ReleasedOthers(w: World, id: nat)
    requires Inv(w) && id < MAX
    ensures var v := Release(w, id).w;
      Shape(v) && OthersKept(w, v, id) && (Live(w, id) ==> id !in v.osms)
    ensures Live(w, id) && w.slots[id].kind.Osm? && w.slots[id].data && w.slots[id].dbId > 0 ==>
      forall x | x in Release(w, id).w.osms && x != id :: w.slots[x].dbId != w.slots[id].dbId
  {
    hide Distinct, Clean;
    ReleaseShape(w, id);
    ListsAreExact(w, id);
  }

  lemma {:induction false} ReleasesKeep(c: Ctl, id: nat, db: map<int, int>)
    requires CtlInv(c) && Agree(c) && id < MAX
    requires Live(c.w, id) && c.w.slots[id].kind.Osm? ==>
      forall k: int | k != c.w.slots[id].dbId :: (k in db <==> k in c.db) && (k in db ==> db[k] == c.db[k])
    requires !(Live(c.w, id) && c.w.slots[id].kind.Osm?) ==> db == c.db
    ensures CtlInv(c.(w := Release(c.w, id).w, db := db)) && Agree(c.(w := Release(c.w, id).w, db := db))
  {
    hide Distinct, Clean;
    CtlFacts(c, id);
    ReleaseKeeps(c.w, id);
    ListsAreExact(c.w, id);
    var v := Release(c.w, id).w;
    SlotsStayOk(c, v, id);
    ReleasedOthers(c.w, id);
    AgreeAfter(c, v, id, db, if Live(c.w, id) && c.w.slots[id].kind.Osm? then c.w.slots[id].dbId else 0);
  }

  lemma {:induction false} StoppedKeeps(c: Ctl, instance: int)
    requires CtlInv(c) && Agree(c)
    ensures CtlInv(OnStopped(c, instance)) && Agree(OnStopped(c, instance))
  {
    hide Inv, Agree, Release;
    CtlFacts(c, 0);
    var id := FindByDb(c.w, Osm, instance);
    FoundInRange(c.w, instance);
    if id > 0 {
      ReleasesKeep(c, id, c.db);
    }
  }

  lemma {:induction false} FoundInRange(w: World, d: int)
    requires Shape(w)
    ensures -1 <= FindByDb(w, Osm, d) < MAX
  {
    FindInSound(w.slots, w.osms, d);
  }

  lemma {:induction false} DisconnectKeeps(c: Ctl, id: nat, dbOk: bool)
    requires CtlInv(c) && Agree(c) && id < MAX && Live(c.w, id)
    ensures CtlInv(OnDisconnect(c, id, dbOk)) && Agree(OnDisconnect(c, id, dbOk))
  {
    hide Inv, Agree, Release;
    CtlFacts(c, id);
    DbUpdateElsewhere(c.db, c.w.slots[id].dbId, DOMAIN_NEED_QUERY);
    ReleasesKeep(c, id, OnDisconnect(c, id, dbOk).db);
  }

  lemma {:induction false} AcceptKeeps(c: Ctl, fd: int, ok: bool)
    requires CtlInv(c) && Agree(c)
    ensures CtlInv(c.(w := New(c.w, fd, ok).w)) && Agree(c.(w := New(c.w, fd, ok).w))
  {
    hide Distinct, Clean, Unique;
    CtlFacts(c, 0);
    NewKeeps(c.w, fd, ok);
    NewTakesLowest(c.w, fd, ok);
    var v := New(c.w, fd, ok).w;
    forall x: nat | x < MAX ensures EntityOk(v.slots[x]) {
      assert EntityOk(c.w.slots[x]);
    }
    forall x | x in v.osms ensures AgreeSlot(v.slots[x], c.db) {
      assert AgreeSlot(c.w.slots[x], c.db);
      ListsAreExact(c.w, x);
    }
  }

  lemma {:induction false} EnableAgrees(c: Ctl, id: nat, d: int, on: bool)
    requires CtlInv(c) && Agree(c) && id < MAX
    requires c.w.slots[id].kind.Node? || (c.w.slots[id].kind.Osm? && c.w.slots[id].status < REGISTERED)
    ensures var c1 := c.(w := Enable(c.w, id, d, on).w);
      && CtlInv(c1) && Agree(c1) && (id in c1.w.osms <==> id in c.w.osms)
      && c1.w.slots[id] == c.w.slots[id].(enabled := on, dbId := if d >= 0 then d else c.w.slots[id].dbId)
  {
    hide Distinct, Unique, Clean, Enable;
    CtlFacts(c, id);
    EnableOnSlot(c.w, id, d, on);
    var v := Enable(c.w, id, d, on).w;
    SlotsStayOk(c, v, id);
    ListsAreExact(v, id);
    AgreeAfter(c, v, id, c.db, 0);
  }

  lemma {:induction false} NodeOnlineKeeps(c: Ctl, id: nat, d: int, auth: Auth, done: bool)
    requires CtlInv(c) && Agree(c) && id < MAX && Live(c.w, id)
    ensures CtlInv(OnNodeOnline(c, id, d, auth, done)) && Agree(OnNodeOnline(c, id, d, auth, done))
  {
    hide CtlInv, Agree, Update, Shape, Inv, SetAuth;
    CtlFacts(c, id);
    if c.w.slots[id].data {
      DataIsListed(c.w, id);
      AuthKept(c, id, auth);
      var c1 := c.(w := SetAuth(c.w, id, auth));
      CtlFacts(c1, id);
      StatusKeeps(c1, id, d, ONLINE);
    }
  }

  /** Registering as a node keeps agreement exactly when it does not disturb. */
  lemma {:induction false} NodeRegisterKeepsIff(c: Ctl, id: nat, d: int, on: bool, dbOk: bool)
    requires CtlInv(c) && Agree(c) && id < MAX && Live(c.w, id)
    ensures var c' := OnNodeRegister(c, id, d, on, dbOk);
      && CtlInv(c')
      && (Agree(c') <==> !Disturbs(c, NodeRegister(id, d, on, dbOk)))
  {
    hide CtlInv, Agree, Update, Enable, Inv;
    CtlFacts(c, id);
    if !AtLeast(c.w, id, REGISTERED) && c.w.slots[id].data && d > 0 && AtLeast(c.w, id, AUTHENTICATED) {
      DataIsListed(c.w, id);
      EnableAgrees(c, id, d, on);
      var c1 := c.(w := Enable(c.w, id, d, on).w);
      CtlFacts(c1, id);
      if c.w.slots[id].kind.Osm? {
        ListsAreExact(c.w, id);
        UpdatedIff(c1, id, d, REGISTERED);
        UpdateOnSlot(c1.w, id, d, REGISTERED);
      } else {
        StatusKeeps(c1, id, d, REGISTERED);
      }
    }
  }

  lemma {:induction false} NodeDisableKeeps(c: Ctl, d: int)
    requires CtlInv(c) && Agree(c)
    ensures CtlInv(OnNodeDisable(c, d)) && Agree(OnNodeDisable(c, d))
  {
    hide Inv, Agree, Enable;
    CtlFacts(c, 0);
    FindInSound(c.w.slots, c.w.nodes, d);
    var id := FindByDb(c.w, Node, d);
    if AtLeast(c.w, id, ONLINE) {
      EnableAgrees(c, id, -1, false);
    }
  }

  lemma {:induction false} BusyKeeps(c: Ctl, id: nat, n: int)
    requires CtlInv(c) && Agree(c)
    ensures CtlInv(Step(c, Busy(id, n))) && Agree(Step(c, Busy(id, n)))
  {
    if id < MAX {
      TagKept(c, id, n);
    }
  }

  // ---------------------------------------------------------------- the theorems

  predicate Fits(e: Event) {
    Source(e) < MAX && (e.AuthReply? ==> e.kind.Node? || e.kind.Osm?)
  }

  /** One event: the invariants stay, and agreement stays exactly unless the event
    * disturbs it. */
  lemma {:induction false} StepAgreesIff(c: Ctl, e: Event)
    requires CtlInv(c) && Agree(c) && Fits(e)
    ensures CtlInv(Step(c, e)) && (Agree(Step(c, e)) <==> !Disturbs(c, e))
  {
    hide Inv, Agree, Received, OnAuthRequest, OnAuthReply, OnRegister, OnReport, OnInstanceInfo, OnStopped,
      OnDisconnect, OnNodeOnline, OnNodeRegister, OnNodeDisable, New, Update, Enable, Release, Clashes;
    CtlFacts(c, 0);
    if Source(e) >= 0 && (!Live(c.w, Source(e)) || c.w.slots[Source(e)].kind.Clc?) {
      DeadIsCalm(c, e);
    } else {
      match e
      case Accept(fd, ok) => AcceptKeeps(c, fd, ok);
      case WebJob(id) => ReceivedKeeps(c, id, Web);
      case AuthRequest(id, tag, found, answered, prepared, sent) =>
        ReceivedKeeps(c, id, Osm);
        AuthRequestKeeps(Received(c, id, Osm), id, tag, found, answered, prepared, sent);
      case AuthReply(id, kind, verified) =>
        ReceivedKeeps(c, id, kind);
        AuthReplyKeeps(Received(c, id, kind), id, verified);
      case Register(id, got, tag, status, sent, dbOk) =>
        ReceivedKeeps(c, id, Osm);
        RegisterKeepsIff(Received(c, id, Osm), id, got, tag, status, sent, dbOk);
        ReceivedDisturbs(c, e);
      case Report(id, status, dbOk) => ReportKeepsIff(c, id, status, dbOk);
      case NodeOnline(id, d, auth, done) =>
        ReceivedKeeps(c, id, Node);
        NodeOnlineKeeps(Received(c, id, Node), id, d, auth, done);
      case NodeRegister(id, d, on, dbOk) =>
        ReceivedKeeps(c, id, Node);
        NodeRegisterKeepsIff(Received(c, id, Node), id, d, on, dbOk);
        ReceivedDisturbs(c, e);
      case NodeDisable(d) => NodeDisableKeeps(c, d);
      case Busy(id, n) => BusyKeeps(c, id, n);
      case InstanceInfo(instance, status, dbOk) => InstanceInfoKeeps(c, instance, status, dbOk);
      case Stopped(instance) => StoppedKeeps(c, instance);
      case Disconnect(id, dbOk) => DisconnectKeeps(c, id, dbOk);
      case Close(id) => ReleasesKeep(c, id, c.db);
    }
  }

  lemma {:induction false} DeadIsCalm(c: Ctl, e: Event)
    requires CtlInv(c) && Fits(e) && Source(e) >= 0
    requires !Live(c.w, Source(e)) || c.w.slots[Source(e)].kind.Clc?
    ensures Step(c, e) == c && !Disturbs(c, e)
  {
  }

  /** Getting a type does not turn a harmless registration into a disturbing one. */
  lemma {:induction false} ReceivedDisturbs(c: Ctl, e: Event)
    requires CtlInv(c) && Agree(c) && (e.Register? || e.NodeRegister?) && Source(e) < MAX && Live(c.w, Source(e))
    ensures Disturbs(Received(c, Source(e), if e.Register? then Osm else Node), e) <==> Disturbs(c, e)
  {
    hide Inv, Agree, Received;
    var id := Source(e);
    var kind := if e.Register? then Osm else Node;
    CtlFacts(c, id);
    ReceivedKeeps(c, id, kind);
    if !c.w.slots[id].kind.Unknown? {
      assert Received(c, id, kind) == c by { InitNothing(c, id, kind); }
    }
  }

  lemma {:induction false} InitNothing(c: Ctl, id: nat, kind: Kind)
    requires Shape(c.w) && id < MAX && |c.tags| == MAX && !c.w.slots[id].kind.Unknown?
    ensures Received(c, id, kind) == c
  {
  }

  ghost predicate CalmRun(c: Ctl, events: seq<Event>)
    requires CtlInv(c) && Agree(c)
    decreases |events|
  {
    events == [] ||
    (&& Fits(events[0]) && !Disturbs(c, events[0])
     && (StepAgreesIff(c, events[0]); CalmRun(Step(c, events[0]), events[1..])))
  }

  ghost function RunEvents(c: Ctl, events: seq<Event>): Ctl
    requires CtlInv(c) && Agree(c) && CalmRun(c, events)
    decreases |events|
  {
    if events == [] then c
    else
      StepAgreesIff(c, events[0]);
      RunEvents(Step(c, events[0]), events[1..])
  }

  /** Every interleaving of handlers in which no event disturbs. */
  lemma {:induction false} RunAgrees(c: Ctl, events: seq<Event>)
    requires CtlInv(c) && Agree(c) && CalmRun(c, events)
    ensures CtlInv(RunEvents(c, events)) && Agree(RunEvents(c, events))
    decreases |events|
  {
    hide Agree, Step, Disturbs, Inv;
    if events != [] {
      CtlFacts(c, 0);
      StepAgreesIff(c, events[0]);
      RunAgrees(Step(c, events[0]), events[1..]);
    }
  }

  // -------------------------------------------------------------- how status rises

  /** Why the status of entity x may go up in event e, and to what. */
  predicate Raises(c: Ctl, e: Event, x: nat, status: nat)
    requires Shape(c.w) && x < MAX
  {
    match e
    case AuthRequest(id, _, found, answered, prepared, sent) =>
      && id == x && status == ONLINE && answered && prepared && sent
      && (c.w.slots[x].auth.secret || !found.NoRow?)
    case AuthReply(id, _, verified) => id == x && status == AUTHENTICATED && verified
    case Register(id, got, tag, osm, sent, dbOk) =>
      && id == x && status == REGISTERED && c.w.slots[x].status == AUTHENTICATED
      && got >= 3 && osm == OSM_UNREGISTERED && sent && dbOk
    case Report(id, reported, dbOk) =>
      id == x && dbOk && status == if reported == APP_RUNNING then SERVING else RUNNING
    case NodeOnline(id, _, _, done) => id == x && status == ONLINE && done
    case NodeRegister(id, d, _, dbOk) =>
      id == x && status == REGISTERED && c.w.slots[x].status == AUTHENTICATED && d > 0 && dbOk
    case _ => false
  }

  /** A status goes up only for these reasons: REGISTERED takes an authenticated entity,
    * AUTHENTICATED a verified reply.  Nothing raises the status of another entity. */
  lemma {:induction false} StatusRises(c: Ctl, e: Event, x: nat)
    requires CtlInv(c) && Agree(c) && Fits(e) && x < MAX && Live(c.w, x)
    ensures |Step(c, e).w.slots| == MAX
    ensures Step(c, e).w.slots[x].status > c.w.slots[x].status ==> Raises(c, e, x, Step(c, e).w.slots[x].status)
  {
    hide Distinct, Unique, Clean, Update, Enable, SlotOk, Agree;
    StepAgreesIff(c, e);
    CtlFacts(c, x);
    CtlFacts(Step(c, e), x);
    if Source(e) >= 0 && Live(c.w, Source(e)) && !c.w.slots[Source(e)].kind.Clc? {
      RisesForSource(c, e, x);
    } else if e.NodeDisable? {
      FindInSound(c.w.slots, c.w.nodes, e.d);
      EnableOnSlot(c.w, if FindByDb(c.w, Node, e.d) > 0 then FindByDb(c.w, Node, e.d) else 0, -1, false);
    } else {
      NewTakesLowest(c.w, if e.Accept? then e.fd else -1, e.Accept? && e.ok);
    }
  }

  lemma {:induction false} RisesForSource(c: Ctl, e: Event, x: nat)
    requires CtlInv(c) && Agree(c) && Fits(e) && x < MAX && Live(c.w, x)
    requires Source(e) >= 0 && Live(c.w, Source(e)) && !c.w.slots[Source(e)].kind.Clc?
    ensures |Step(c, e).w.slots| == MAX
    ensures Step(c, e).w.slots[x].status > c.w.slots[x].status ==> Raises(c, e, x, Step(c, e).w.slots[x].status)
  {
    hide Distinct, Unique, Clean, Update, Enable, SlotOk, Agree, Received, Inv, CtlInv, DbUpdate, Disturbs, Shape,
      EntityOk;
    var id := Source(e);
    CtlFacts(c, x);
    StepAgreesIff(c, e);
    CtlFacts(Step(c, e), x);
    match e
    case AuthRequest(_, _, _, _, _, _) => RisesOnRequest(c, e, x);
    case WebJob(_) => ReceivedOnly(c, id, Web, x);
    case AuthReply(_, kind, verified) =>
      ReceivedOnly(c, id, kind, x);
      UpdateOnSlot(Received(c, id, kind).w, id, -1, AUTHENTICATED);
    case Register(_, got, tag, status, sent, dbOk) =>
      ReceivedOnly(c, id, Osm, x);
      UpdateOnSlot(Received(c, id, Osm).w, id, tag, REGISTERED);
    case Report(_, status, dbOk) =>
      UpdateOnSlot(c.w, id, -1, SERVING);
      UpdateOnSlot(c.w, id, -1, RUNNING);
    case NodeOnline(_, d, auth, done) =>
      ReceivedOnly(c, id, Node, x);
      var t := Received(c, id, Node);
      AuthKept(t, id, auth);
      CtlFacts(t.(w := SetAuth(t.w, id, auth)), id);
      UpdateOnSlot(SetAuth(t.w, id, auth), id, d, ONLINE);
    case NodeRegister(_, d, on, dbOk) => RisesOnNodeRegister(c, e, x);
    case Disconnect(_, dbOk) =>
    case Close(_) =>
  }

  lemma {:induction false} RisesOnNodeRegister(c: Ctl, e: Event, x: nat)
    requires CtlInv(c) && Agree(c) && Fits(e) && x < MAX && Live(c.w, x) && e.NodeRegister?
    requires Live(c.w, e.id) && !c.w.slots[e.id].kind.Clc?
    ensures |Step(c, e).w.slots| == MAX
    ensures Step(c, e).w.slots[x].status > c.w.slots[x].status ==> Raises(c, e, x, Step(c, e).w.slots[x].status)
  {
    hide Distinct, Unique, Clean, Update, Enable, SlotOk, Agree, Received, Inv, CtlInv, DbUpdate, Disturbs, Shape,
      EntityOk;
    var id := e.id;
    CtlFacts(c, x);
    StepAgreesIff(c, e);
    CtlFacts(Step(c, e), x);
    ReceivedOnly(c, id, Node, x);
    var t := Received(c, id, Node);
    EnableOnSlot(t.w, id, e.d, e.on);
    UpdateOnSlot(Enable(t.w, id, e.d, e.on).w, id, e.d, REGISTERED);
  }

  lemma {:induction false} RisesOnRequest(c: Ctl, e: Event, x: nat)
    requires CtlInv(c) && Agree(c) && Fits(e) && x < MAX && Live(c.w, x) && e.AuthRequest?
    requires Live(c.w, e.id) && !c.w.slots[e.id].kind.Clc?
    ensures |Step(c, e).w.slots| == MAX
    ensures Step(c, e).w.slots[x].status > c.w.slots[x].status ==> Raises(c, e, x, Step(c, e).w.slots[x].status)
  {
    hide Distinct, Unique, Clean, Update, SlotOk, Agree, Received, Inv, CtlInv, DbUpdate, Disturbs, Shape, EntityOk;
    var id := e.id;
    CtlFacts(c, x);
    StepAgreesIff(c, e);
    CtlFacts(Step(c, e), x);
    ReceivedOnly(c, id, Osm, x);
    var t := Received(c, id, Osm);
    AskedKeeps(t, id, e.tag, e.found);
    var c1 := Asked(t, id, e.tag, e.found);
    CtlFacts(c1, id);
    var auth := c1.w.slots[id].auth.(challenge := e.prepared);
    AuthKept(c1, id, auth);
    CtlFacts(c1.(w := SetAuth(c1.w, id, auth)), id);
    UpdateOnSlot(SetAuth(c1.w, id, auth), id, c1.tags[id], ONLINE);
  }

  lemma {:induction false} ReceivedOnly(c: Ctl, id: nat, kind: Kind, x: nat)
    requires CtlInv(c) && Agree(c) && id < MAX && x < MAX && Live(c.w, id)
    requires kind.Web? || kind.Node? || kind.Osm?
    ensures var t := Received(c, id, kind);
      && CtlInv(t) && Agree(t) && Inv(t.w) && |t.tags| == MAX && Live(t.w, id) && |t.w.slots| == MAX
      && t.w.slots[x].status == c.w.slots[x].status && t.w.slots[x].auth == c.w.slots[x].auth
      && t.w.slots[id] == if c.w.slots[id].kind.Unknown? then c.w.slots[id].(kind := kind, data := !kind.Web?)
                          else c.w.slots[id]
  {
    hide Distinct, Unique, Clean, Agree;
    CtlFacts(c, id);
    ReceivedKeeps(c, id, kind);
    CtlFacts(Received(c, id, kind), id);
  }
}
