/** What the handlers of the controller do to the store and the rows, said outright.
  *
  * Controller follows the code through the store operations; here the outcome of each event
  * is given slot by slot and row by row, in terms of the lists and database ids as they
  * were.
  */
module Effects {
  import opened EntityStore
  import opened Controller

  /** A row takes a status unless it is missing or marked for deletion (100). */
  ghost predicate OnlyRow(db: map<int, int>, db': map<int, int>, d: int, status: int) {
    && (forall k: int :: k in db' <==> k in db)
    && (forall k: int | k in db && k != d :: db'[k] == db[k])
    && (d in db ==> db'[d] == if db[d] == 100 then 100 else status)
  }

  /** Entity id has database id d now; whoever of its type had it before is gone. */
  predicate TakesOver(w: World, v: World, id: nat, d: int)
    requires |w.slots| == MAX == |v.slots| && id < MAX
  {
    && v.slots[id].dbId == d
    && forall x: nat | x < MAX && x != id ::
         v.slots[x] == if d > 0 && x in Listed(w, w.slots[id].kind) && w.slots[x].dbId == d
                       then Slot(-1, -1, -1, Unknown, 0, false, false, NoAuth, w.slots[x].pkt)
                       else w.slots[x]
  }

  lemma {:induction false} SlotsAre(c: Ctl)
    requires CtlInv(c)
    ensures Inv(c.w) && Shape(c.w) && |c.w.slots| == MAX && |c.tags| == MAX
  {
  }

  // --------------------------------------------------------------- reports and info

  /** Node info sets the status of a row, unless an instance with that id is registered;
    * nothing else changes. */
  lemma {:induction false} InfoOutcome(c: Ctl, instance: int, status: int, dbOk: bool)
    requires CtlInv(c)
    ensures Shape(c.w) && |c.tags| == MAX
    ensures var c' := Step(c, InstanceInfo(instance, status, dbOk));
      && c'.w == c.w && c'.tags == c.tags
      && if dbOk && status != 0
            && !(exists x :: x in c.w.osms && c.w.slots[x].dbId == instance > 0 && c.w.slots[x].status >= 3)
         then OnlyRow(c.db, c'.db, instance, status)
         else c'.db == c.db
  {
    hide Distinct, Clean, Unique, FindByDb;
    SlotsAre(c);
    if instance > 0 {
      forall x: nat | x < MAX
        ensures FindByDb(c.w, Osm, instance) == x <==> x in c.w.osms && c.w.slots[x].dbId == instance
      {
        FindByDbIff(c.w, Osm, instance, x);
      }
      FindInSound(c.w.slots, c.w.osms, instance);
    } else {
      assert FindByDb(c.w, Osm, instance) == -1 by { NothingUnder(c.w, instance); }
    }
  }

  lemma {:induction false} NothingUnder(w: World, d: int)
    requires Shape(w) && d <= 0
    ensures FindByDb(w, Osm, d) == -1
  {
  }

  /** A report of 2000 makes its entity SERVING (5) and its row 5, one of 2001 to 2130 makes
    * it RUNNING (4) and its row 4; unless it was there already or the row cannot be written. */
  lemma {:induction false} ReportOutcome(c: Ctl, id: nat, status: int, dbOk: bool)
    requires CtlInv(c) && id < MAX && Live(c.w, id) && !c.w.slots[id].kind.Clc?
    ensures Shape(c.w) && |c.tags| == MAX
    ensures var c' := Step(c, Report(id, status, dbOk)); var s := c.w.slots[id];
      var level := if status == 2000 then 5 else 4;
      if dbOk && ((status == 2000 && s.status < 5) || (2000 < status <= 2130 && (s.status < 4 || s.status >= 5)))
      then
        && c'.w == c.w.(slots := c.w.slots[id := s.(status := level)]) && c'.tags == c.tags
        && OnlyRow(c.db, c'.db, s.dbId, level)
      else c' == c
  {
    hide Distinct, Clean, Unique;
    SlotsAre(c);
  }

  // --------------------------------------------------------------------- instances

  /** A reply that verifies makes an entity below AUTHENTICATED (2) authenticated; any other
    * changes nothing but the type of a fresh connection. */
  lemma {:induction false} ReplyOutcome(c: Ctl, id: nat, kind: Kind, verified: bool)
    requires CtlInv(c) && Agree(c) && id < MAX && Live(c.w, id) && !c.w.slots[id].kind.Clc? && (kind.Osm? || kind.Node?)
    ensures Shape(c.w) && |c.tags| == MAX
    ensures var c' := Step(c, AuthReply(id, kind, verified)); var t := Received(c, id, kind);
      && c'.tags == t.tags && c'.db == c.db && c'.w.nodes == t.w.nodes && c'.w.osms == t.w.osms
      && c'.w.slots == t.w.slots[id := t.w.slots[id].(
           status := if verified && c.w.slots[id].status < 2 then 2 else c.w.slots[id].status)]
  {
    hide Distinct, Clean, Unique, Received, Agree;
    SlotsAre(c);
    ReceivedKeeps(c, id, kind);
  }

  /** A first packet types its connection: it gets zeroed data and goes to the head of the
    * list; on a connection that has a type nothing happens. */
  lemma {:induction false} ReceivedOutcome(c: Ctl, id: nat, kind: Kind)
    requires CtlInv(c) && id < MAX && Live(c.w, id) && (kind.Osm? || kind.Node? || kind.Web?)
    ensures Shape(c.w) && |c.tags| == MAX
    ensures var t := Received(c, id, kind); var s := c.w.slots[id];
      && t.db == c.db && t.w.clc == c.w.clc
      && if s.kind.Unknown? then
           && t.tags == c.tags[id := 0]
           && t.w.slots == c.w.slots[id := s.(kind := kind, data := if kind.Web? then s.data else true)]
           && t.w.nodes == (if kind.Node? then [id] + c.w.nodes else c.w.nodes)
           && t.w.osms == (if kind.Osm? then [id] + c.w.osms else c.w.osms)
         else t == c
  {
    hide Distinct, Clean, Unique;
    SlotsAre(c);
  }

  /** A registration: the first number read becomes the tag.  If three fields were read, the
    * entity is authenticated but not registered (2), claims status 7, is answered and the
    * database can be written, its row becomes RUNNING (4) and it REGISTERED (3) under the
    * tag; a negative tag leaves its number. */
  lemma {:induction false} RegisterOutcome(c: Ctl, id: nat, got: nat, tag: int, status: int, sent: bool, dbOk: bool)
    requires CtlInv(c) && Agree(c) && id < MAX && Live(c.w, id) && !c.w.slots[id].kind.Clc?
    ensures Shape(c.w) && |c.tags| == MAX && |Step(c, Register(id, got, tag, status, sent, dbOk)).w.slots| == MAX
    ensures var c' := Step(c, Register(id, got, tag, status, sent, dbOk)); var t := Received(c, id, Osm);
      var s := t.w.slots[id];
      && c'.tags == (if s.status < 3 && s.data && got >= 1 then t.tags[id := tag] else t.tags)
      && if s.status == 2 && s.data && got >= 3 && status == 7 && sent && dbOk then
           && OnlyRow(c.db, c'.db, tag, 4)
           && c'.w.slots[id] == s.(status := 3, dbId := if tag >= 0 then tag else s.dbId)
           && (tag >= 0 ==> TakesOver(t.w, c'.w, id, tag))
           && (tag < 0 ==> forall x: nat | x < MAX && x != id :: c'.w.slots[x] == t.w.slots[x])
         else c'.db == c.db && c'.w == t.w
  {
    hide Distinct, Clean, Unique, Received, Agree, Update, Inv, CtlInv;
    SlotsAre(c);
    ReceivedKeeps(c, id, Osm);
    var t := Received(c, id, Osm);
    SlotsAre(t);
    UpdateOutcome(t.w, id, tag, REGISTERED);
  }

  /** An authentication request.  With no secret yet, the row is asked for one and the tag
    * of the request is kept; without a row nothing happens.  When the answer can be made it
    * puts a new challenge in place, and when that is sent the entity is ONLINE (1) under the
    * tag kept, whatever it was before. */
  lemma {:induction false} RequestOutcome(c: Ctl, id: nat, tag: int, found: Found, answered: bool, prepared: bool,
          sent: bool)
    requires CtlInv(c) && Agree(c) && id < MAX && Live(c.w, id) && !c.w.slots[id].kind.Clc?
    ensures Shape(c.w) && |c.tags| == MAX
    ensures |Step(c, AuthRequest(id, tag, found, answered, prepared, sent)).w.slots| == MAX
    ensures var c' := Step(c, AuthRequest(id, tag, found, answered, prepared, sent)); var t := Received(c, id, Osm);
      var s := t.w.slots[id]; var kept := if s.auth.secret then t.tags[id] else tag;
      && c'.db == c.db
      && if !s.data || (!s.auth.secret && found.NoRow?) then c' == t
         else
           && c'.tags == t.tags[id := kept]
           && (c'.w.slots[id].auth.secret <==> s.auth.secret || found.HasKey?)
           && (c'.w.slots[id].auth.challenge <==> if answered then prepared else s.auth.challenge)
           && if answered && prepared && sent then
                && c'.w.slots[id] == s.(auth := c'.w.slots[id].auth, status := 1,
                                        dbId := if kept >= 0 then kept else s.dbId)
                && (kept >= 0 ==> TakesOver(t.w, c'.w, id, kept))
                && (kept < 0 ==> forall x: nat | x < MAX && x != id :: c'.w.slots[x] == t.w.slots[x])
              else c'.w == t.w.(slots := t.w.slots[id := s.(auth := c'.w.slots[id].auth)])
  {
    hide *;
    SlotsAre(c);
    ReceivedKeeps(c, id, Osm);
    var t := Received(c, id, Osm);
    SlotsAre(t);
    RequestIs(c, id, tag, found, answered, prepared, sent);
    StaysLive(c, id);
    RequestFrom(t, id, tag, found, answered, prepared, sent);
  }

  lemma {:induction false} RequestIs(c: Ctl, id: nat, tag: int, found: Found, answered: bool, prepared: bool,
          sent: bool)
    requires CtlInv(c) && id < MAX && Live(c.w, id) && !c.w.slots[id].kind.Clc?
    ensures Shape(c.w) && |c.tags| == MAX
    ensures Step(c, AuthRequest(id, tag, found, answered, prepared, sent))
         == OnAuthRequest(Received(c, id, Osm), id, tag, found, answered, prepared, sent)
    ensures Received(c, id, Osm).db == c.db
  {
    hide Distinct, Clean, Unique, Received, OnAuthRequest;
  }

  lemma {:induction false} StaysLive(c: Ctl, id: nat)
    requires CtlInv(c) && id < MAX && Live(c.w, id)
    ensures Shape(c.w) && |c.tags| == MAX && Live(Received(c, id, Osm).w, id)
  {
    hide Distinct, Clean, Unique;
  }

  lemma {:induction false} RequestFrom(t: Ctl, id: nat, tag: int, found: Found, answered: bool, prepared: bool,
          sent: bool)
    requires Inv(t.w) && Shape(t.w) && |t.tags| == MAX && |t.w.slots| == MAX && id < MAX && Live(t.w, id)
    ensures var c' := OnAuthRequest(t, id, tag, found, answered, prepared, sent);
      var s := t.w.slots[id]; var kept := if s.auth.secret then t.tags[id] else tag;
      && |c'.w.slots| == MAX && c'.db == t.db
      && if !s.data || (!s.auth.secret && found.NoRow?) then c' == t
         else
           && c'.tags == t.tags[id := kept]
           && (c'.w.slots[id].auth.secret <==> s.auth.secret || found.HasKey?)
           && (c'.w.slots[id].auth.challenge <==> if answered then prepared else s.auth.challenge)
           && if answered && prepared && sent then
                && c'.w.slots[id] == s.(auth := c'.w.slots[id].auth, status := 1,
                                        dbId := if kept >= 0 then kept else s.dbId)
                && (kept >= 0 ==> TakesOver(t.w, c'.w, id, kept))
                && (kept < 0 ==> forall x: nat | x < MAX && x != id :: c'.w.slots[x] == t.w.slots[x])
              else c'.w == t.w.(slots := t.w.slots[id := s.(auth := c'.w.slots[id].auth)])
  {
    hide Distinct, Clean, Unique, Update, Inv, TakesOver;
    var s := t.w.slots[id];
    assert t.tags[id := t.tags[id]] == t.tags;
    var kept := if s.auth.secret then t.tags[id] else tag;
    var auth := s.auth.(secret := s.auth.secret || found.HasKey?, challenge := prepared);
    AuthTwice(t.w, id, s.auth.(secret := auth.secret), auth);
    AnsweredOutcome(t.w, id, auth, kept);
  }

  lemma {:induction false} AuthTwice(w: World, id: nat, a: Auth, b: Auth)
    requires |w.slots| == MAX && id < MAX
    ensures SetAuth(SetAuth(w, id, a), id, b) == SetAuth(w, id, b) && SetAuth(w, id, w.slots[id].auth) == w
  {
  }

  lemma {:induction false} AnsweredOutcome(w: World, id: nat, auth: Auth, d: int)
    requires Inv(w) && |w.slots| == MAX && id < MAX && Live(w, id)
    ensures Shape(SetAuth(w, id, auth)) && |Update(SetAuth(w, id, auth), id, d, ONLINE).w.slots| == MAX
    ensures var v := Update(SetAuth(w, id, auth), id, d, ONLINE).w;
      && v.slots[id] == w.slots[id].(auth := auth, status := 1, dbId := if d >= 0 then d else w.slots[id].dbId)
      && (d >= 0 ==> TakesOver(w, v, id, d))
      && (d < 0 ==> forall x: nat | x < MAX && x != id :: v.slots[x] == w.slots[x])
  {
    hide Inv, Update, TakesOver, Shape;
    AuthOutcome(w, id, auth);
    var a := SetAuth(w, id, auth);
    UpdateOutcome(a, id, d, ONLINE);
    if d >= 0 {
      TakesOverSame(w, a, Update(a, id, d, ONLINE).w, id, d);
    }
  }

  lemma {:induction false} AuthOutcome(w: World, id: nat, auth: Auth)
    requires Inv(w) && id < MAX && (Live(w, id) || auth == NoAuth)
    ensures Shape(w) && SetAuth(w, id, auth).slots == w.slots[id := w.slots[id].(auth := auth)]
    ensures SetAuth(w, id, auth) == w.(slots := w.slots[id := w.slots[id].(auth := auth)])
    ensures Inv(SetAuth(w, id, auth)) && Shape(SetAuth(w, id, auth))
  {
    hide Distinct;
    var v := SetAuth(w, id, auth);
    forall x: nat | x < MAX ensures SlotOk(v, x) {
      assert SlotOk(w, x);
    }
  }

  /** ly_entity_update, slot by slot. */
  lemma {:induction false} UpdateOutcome(w: World, id: nat, d: int, status: int)
    requires Inv(w) && id < MAX && status < 8
    ensures Shape(w) && |Update(w, id, d, status).w.slots| == MAX
    ensures var v := Update(w, id, d, status).w;
      && v.slots[id] == w.slots[id].(status := if status >= 0 then status else w.slots[id].status,
                                     dbId := if d >= 0 then d else w.slots[id].dbId)
      && (d >= 0 ==> TakesOver(w, v, id, d))
      && (d < 0 ==> forall x: nat | x < MAX && x != id :: v.slots[x] == w.slots[x])
  {
    hide Distinct, Unique, Clean;
    var s := SetStatus(w, id, status);
    SameListsKeep(w, s);
    if d >= 0 {
      SetDbOutcome(s, id, d);
    }
  }

  lemma {:induction false} SetDbOutcome(w: World, id: nat, d: nat)
    requires Inv(w) && id < MAX
    ensures Shape(w) && |SetDb(w, id, d).slots| == MAX && TakesOver(w, SetDb(w, id, d), id, d)
    ensures SetDb(w, id, d).slots[id] == w.slots[id].(dbId := d)
  {
    hide Distinct, Unique, Clean, SlotOk, FindByDb;
    var kind := w.slots[id].kind;
    var prior := FindByDb(w, kind, d);
    PriorIs(w, kind, d);
    if prior >= 0 {
      ListsAreExact(w, prior);
    }
    var v := SetDb(w, id, d);
    forall x: nat | x < MAX && x != id
      ensures v.slots[x] == if prior == x then EmptySlot(w.slots[x].pkt) else w.slots[x]
    {
    }
  }

  /** The entity found before, as a number. */
  lemma {:induction false} PriorIs(w: World, kind: Kind, d: nat)
    requires Inv(w)
    ensures Shape(w) && -1 <= FindByDb(w, kind, d) < MAX
    ensures forall x: nat | x < MAX ::
      FindByDb(w, kind, d) == x <==> d > 0 && x in Listed(w, kind) && w.slots[x].dbId == d
  {
    hide Distinct, Unique, Clean, SlotOk;
    FindInSound(w.slots, Listed(w, kind), d);
    forall x: nat | x < MAX
      ensures FindByDb(w, kind, d) == x <==> d > 0 && x in Listed(w, kind) && w.slots[x].dbId == d
    {
      if d > 0 {
        FindByDbIff(w, kind, d, x);
      }
    }
  }

  // ------------------------------------------------------------------------- nodes

  /** A node comes online (1) under the number d with what it has of a secret and a
    * challenge; without the last step it keeps status and number. */
  lemma {:induction false} OnlineOutcome(c: Ctl, id: nat, d: int, auth: Auth, done: bool)
    requires CtlInv(c) && Agree(c) && id < MAX && Live(c.w, id) && !c.w.slots[id].kind.Clc?
    ensures Shape(c.w) && |c.tags| == MAX && |Step(c, NodeOnline(id, d, auth, done)).w.slots| == MAX
    ensures var c' := Step(c, NodeOnline(id, d, auth, done)); var t := Received(c, id, Node);
      var s := t.w.slots[id];
      && c'.db == c.db && c'.tags == t.tags
      && if s.data && done then
           && c'.w.slots[id] == s.(auth := auth, status := 1, dbId := if d >= 0 then d else s.dbId)
           && (d >= 0 ==> TakesOver(t.w, c'.w, id, d))
           && (d < 0 ==> forall x: nat | x < MAX && x != id :: c'.w.slots[x] == t.w.slots[x])
         else c'.w == if s.data then t.w.(slots := t.w.slots[id := s.(auth := auth)]) else t.w
  {
    hide Distinct, Clean, Unique, Received, Agree, Update, Inv, CtlInv, TakesOver;
    SlotsAre(c);
    ReceivedKeeps(c, id, Node);
    var t := Received(c, id, Node);
    SlotsAre(t);
    NodeStaysLive(c, id);
    AnsweredOutcome(t.w, id, auth, d);
  }

  lemma {:induction false} NodeStaysLive(c: Ctl, id: nat)
    requires CtlInv(c) && id < MAX && Live(c.w, id)
    ensures Shape(c.w) && |c.tags| == MAX && Live(Received(c, id, Node).w, id)
  {
    hide Distinct, Clean, Unique;
  }

  /** A node that is authenticated but not registered (2) and has a number d in the database
    * is enabled as asked under that number, and REGISTERED (3) if its row can be written. */
  lemma {:induction false} NodeRegisterOutcome(c: Ctl, id: nat, d: int, on: bool, dbOk: bool)
    requires CtlInv(c) && Agree(c) && id < MAX && Live(c.w, id) && !c.w.slots[id].kind.Clc?
    ensures Shape(c.w) && |c.tags| == MAX && |Step(c, NodeRegister(id, d, on, dbOk)).w.slots| == MAX
    ensures var c' := Step(c, NodeRegister(id, d, on, dbOk)); var t := Received(c, id, Node);
      var s := t.w.slots[id];
      && c'.db == c.db && c'.tags == t.tags
      && if s.data && s.status == 2 && d > 0 then
           && c'.w.slots[id] == s.(enabled := on, dbId := d, status := if dbOk then 3 else 2)
           && TakesOver(t.w, c'.w, id, d)
         else c'.w == t.w
  {
    hide Distinct, Clean, Unique, Received, Agree, Update, Enable, Inv, CtlInv, TakesOver;
    SlotsAre(c);
    ReceivedKeeps(c, id, Node);
    var t := Received(c, id, Node);
    SlotsAre(t);
    if t.w.slots[id].status == 2 && d > 0 {
      EnableOutcome(t.w, id, d, on);
      if dbOk {
        var e := Enable(t.w, id, d, on).w;
        UpdateOutcome(e, id, d, REGISTERED);
        TakesOverTwice(t.w, e, Update(e, id, d, REGISTERED).w, id, d);
      }
    }
  }

  /** ly_entity_enable, slot by slot. */
  lemma {:induction false} EnableOutcome(w: World, id: nat, d: int, on: bool)
    requires Inv(w) && id < MAX
    ensures Shape(w) && Inv(Enable(w, id, d, on).w) && |Enable(w, id, d, on).w.slots| == MAX
    ensures var v := Enable(w, id, d, on).w;
      && v.slots[id] == w.slots[id].(enabled := on, dbId := if d >= 0 then d else w.slots[id].dbId)
      && (d >= 0 ==> TakesOver(w, v, id, d))
      && (d < 0 ==> v == w.(slots := w.slots[id := w.slots[id].(enabled := on)]))
      && (forall x | x in v.nodes :: x in w.nodes) && (forall x | x in v.osms :: x in w.osms)
  {
    hide Distinct, Unique, Clean, TakesOver;
    EnableKeeps(w, id, d, on);
    var s := w.(slots := w.slots[id := w.slots[id].(enabled := on)]);
    SameListsKeep(w, s);
    if d >= 0 {
      SetDbOutcome(s, id, d);
      TakesOverSame(w, s, SetDb(s, id, d), id, d);
    }
  }

  lemma {:induction false} TakesOverSame(t: World, w: World, v: World, id: nat, d: int)
    requires |t.slots| == |w.slots| == |v.slots| == MAX && id < MAX
    requires w.nodes == t.nodes && w.osms == t.osms
    requires forall x: nat | x < MAX && x != id :: w.slots[x] == t.slots[x]
    requires w.slots[id].kind == t.slots[id].kind
    requires TakesOver(w, v, id, d)
    ensures TakesOver(t, v, id, d)
  {
  }

  /** Taking over the number again changes no other slot. */
  lemma {:induction false} TakesOverTwice(t: World, w: World, v: World, id: nat, d: int)
    requires Inv(t) && Inv(w) && |t.slots| == |w.slots| == |v.slots| == MAX && id < MAX && d > 0
    requires TakesOver(t, w, id, d) && TakesOver(w, v, id, d) && w.slots[id].kind == t.slots[id].kind
    requires (forall x | x in w.nodes :: x in t.nodes) && (forall x | x in w.osms :: x in t.osms)
    ensures TakesOver(t, v, id, d)
  {
    hide Distinct, Unique, Clean, SlotOk;
  }

  /** Node d is switched off in the scheduler, if it is online. */
  lemma {:induction false} DisableOutcome(c: Ctl, d: int, x: nat)
    requires CtlInv(c) && x < MAX
    ensures Shape(c.w) && |c.tags| == MAX
    ensures var c' := Step(c, NodeDisable(d)); var s := c.w.slots[x];
      && c'.db == c.db && c'.tags == c.tags
      && (x in c.w.nodes && s.dbId == d > 0 ==>
            c'.w == if s.status >= 1 then c.w.(slots := c.w.slots[x := s.(enabled := false)]) else c.w)
      && ((forall y | y in c.w.nodes && d > 0 :: c.w.slots[y].dbId != d) ==> c' == c)
  {
    hide Distinct, Clean, Unique;
    SlotsAre(c);
    if d > 0 {
      FindByDbIff(c.w, Node, d, x);
      FindInSound(c.w.slots, c.w.nodes, d);
    }
  }

  // ------------------------------------------------------------------- releases

  /** Slot id is free again, and out of the lists. */
  ghost predicate Freed(w: World, v: World, id: nat)
    requires |w.slots| == MAX && id < MAX
  {
    && v.slots == w.slots[id := Slot(-1, -1, -1, Unknown, 0, false, false, NoAuth, w.slots[id].pkt)]
    && (forall x :: x in v.nodes <==> x in w.nodes && x != id)
    && (forall x :: x in v.osms <==> x in w.osms && x != id)
  }

  /** When an instance was stopped its entity is released, if it has one and that is not in
    * slot 0. */
  lemma {:induction false} StoppedOutcome(c: Ctl, instance: int, x: nat)
    requires CtlInv(c) && x < MAX
    ensures Shape(c.w) && |c.tags| == MAX
    ensures var c' := Step(c, Stopped(instance));
      && c'.db == c.db && c'.tags == c.tags
      && (instance > 0 && x > 0 && x in c.w.osms && c.w.slots[x].dbId == instance ==> Freed(c.w, c'.w, x))
      && ((forall y | y in c.w.osms && y > 0 && instance > 0 :: c.w.slots[y].dbId != instance) ==> c' == c)
  {
    hide Distinct, Clean, Unique;
    SlotsAre(c);
    if instance > 0 {
      FindByDbIff(c.w, Osm, instance, x);
      FindInSound(c.w.slots, c.w.osms, instance);
      ListsAreExact(c.w, x);
    } else {
      NothingUnder(c.w, instance);
    }
  }

  /** When a connection ends its entity is released; the row of an instance becomes
    * NEED_QUERY (245). */
  lemma {:induction false} DisconnectOutcome(c: Ctl, id: nat, dbOk: bool)
    requires CtlInv(c) && id < MAX && Live(c.w, id) && !c.w.slots[id].kind.Clc?
    ensures Shape(c.w) && |c.tags| == MAX
    ensures var c' := Step(c, Disconnect(id, dbOk));
      && Freed(c.w, c'.w, id) && c'.tags == c.tags
      && if c.w.slots[id].kind.Osm? && dbOk then OnlyRow(c.db, c'.db, c.w.slots[id].dbId, 245) else c'.db == c.db
  {
    hide Distinct, Clean, Unique;
    SlotsAre(c);
  }
}
