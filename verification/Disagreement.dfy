/** How store and database come to disagree: one run for each kind of event that disturbs.
  *
  * Every run begins with the listener alone, and no event before the last disturbs.  The
  * row of instance 7 is being started when the runs begin.
  */
module Disagreement {
  import opened EntityStore
  import opened Controller

  // ------------------------------------------------------------------ runs by steps

  /** A run of undisturbing events from c to d. */
  ghost predicate Leads(c: Ctl, events: seq<Event>, d: Ctl)
    requires CtlInv(c) && Agree(c)
  {
    CalmRun(c, events) && RunEvents(c, events) == d
  }

  lemma {:induction false} OneMore(c: Ctl, events: seq<Event>, d: Ctl, e: Event)
    requires CtlInv(c) && Agree(c) && Leads(c, events, d)
    requires Shape(d.w) && |d.tags| == MAX && Fits(e) && !Disturbs(d, e)
    ensures Leads(c, events + [e], Step(d, e))
    decreases |events|
  {
    hide Step, Disturbs, CtlInv, Agree, Shape, Fits;
    CtlFacts(c, 0);
    var more := events + [e];
    if events == [] {
      assert more == [e] && more[1..] == [];
      StepAgreesIff(c, e);
      NoEvents(c);
      NoEvents(Step(c, e));
    } else {
      assert more[0] == events[0] && more[1..] == events[1..] + [e];
      StepAgreesIff(c, events[0]);
      CtlFacts(Step(c, events[0]), 0);
      OneMore(Step(c, events[0]), events[1..], d, e);
    }
  }

  lemma {:induction false} NoEvents(c: Ctl)
    requires CtlInv(c) && Agree(c)
    ensures CalmRun(c, []) && RunEvents(c, []) == c
  {
  }

  lemma {:induction false} LedFacts(c: Ctl, events: seq<Event>, d: Ctl)
    requires CtlInv(c) && Agree(c) && Leads(c, events, d)
    ensures CtlInv(d) && Shape(d.w) && |d.tags| == MAX && Agree(d)
  {
    hide CtlInv, Agree, Shape;
    RunAgrees(c, events);
    CtlFacts(d, 0);
  }

  // ----------------------------------------------------------------------- states

  /** The controller with its listener, before anything connects. */
  function Listening(): Ctl {
    Ctl(Init(New(EmptyStore(), 3, true).w, 0, Clc, true).w, seq(MAX, i => 0), Begun)
  }

  const Begun: map<int, int> := map[7 := 3]

  lemma {:induction false} ListeningHolds()
    ensures CtlInv(Listening()) && Shape(Listening().w) && Listener(Listening().w) && Agree(Listening())
  {
    hide EmptyStore, Distinct, Unique;
    EmptyInv();
    ListenerStarts(3);
    NewKeeps(EmptyStore(), 3, true);
    NewTakesLowest(EmptyStore(), 3, true);
    FirstFreeIs(EmptyStore().slots, 0, 0);
    InitKeepsIff(New(EmptyStore(), 3, true).w, 0, Clc, true);
    EmptySlots();
  }

  lemma {:induction false} EmptySlots()
    ensures |EmptyStore().slots| == MAX && EmptyStore().nodes == [] && EmptyStore().osms == []
    ensures forall x: nat | x < MAX :: EmptyStore().slots[x] == EmptySlot(false)
  {
  }

  /** The listener in slot 0, entities in slots 1 and 2, and nothing else. */
  function Slots(one: Slot, two: Slot): seq<Slot> {
    EmptyStore().slots[0 := Slot(3, 0, -1, Clc, 0, false, false, NoAuth, true)][1 := one][2 := two]
  }

  function Tags(tag: int): seq<int> {
    seq(MAX, i => 0)[1 := tag]
  }

  function Two(one: Slot, two: Slot, nodes: seq<nat>, osms: seq<nat>, tag: int, db: map<int, int>): Ctl {
    Ctl(World(Slots(one, two), nodes, osms, 0), Tags(tag), db)
  }

  lemma {:induction false} Updates()
    ensures forall one, two :: |Slots(one, two)| == MAX && Slots(one, two)[0].kind == Clc
    ensures forall one, two :: Slots(one, two)[0].id == 0 && Slots(one, two)[1] == one && Slots(one, two)[2] == two
    ensures forall one, two, s :: Slots(one, two)[1 := s] == Slots(s, two)
    ensures forall one, two, s :: Slots(one, two)[2 := s] == Slots(one, s)
    ensures forall tag :: |Tags(tag)| == MAX && Tags(tag)[1] == tag && Tags(tag)[2] == 0
    ensures forall tag :: |Tags(tag)| == MAX && Tags(tag)[2 := 0] == Tags(tag)
    ensures forall tag, t :: Tags(tag)[1 := t] == Tags(t)
  {
    hide EmptyStore;
    EmptySlots();
  }

  /** An entity as it comes, and as instance 7 or node 7. */
  function Came(id: nat): Slot {
    Slot(3 + id, id, -1, Unknown, 0, false, false, NoAuth, true)
  }

  function Seven(id: nat, kind: Kind, status: nat): Slot {
    Slot(3 + id, id, 7, kind, status, false, true, Auth(true, true), true)
  }

  const Nobody: Slot := EmptySlot(false)
  const RowServes: map<int, int> := map[7 := DOMAIN_SERVING]

  function OneCame(): Ctl {
    Two(Came(1), Nobody, [], [], 0, Begun)
  }

  function Asking(): Ctl {
    Two(Seven(1, Osm, ONLINE), Nobody, [], [1], 7, Begun)
  }

  function Starting(): Ctl {
    Two(Seven(1, Osm, AUTHENTICATED), Nobody, [], [1], 7, Begun)
  }

  function Registered(): Ctl {
    Two(Seven(1, Osm, REGISTERED), Nobody, [], [1], 7, map[7 := DOMAIN_RUNNING])
  }

  function Serving(): Ctl {
    Two(Seven(1, Osm, SERVING), Nobody, [], [1], 7, RowServes)
  }

  function TwoCame(): Ctl {
    Two(Seven(1, Osm, SERVING), Came(2), [], [1], 7, RowServes)
  }

  function NodeAsking(): Ctl {
    Two(Seven(1, Osm, SERVING), Seven(2, Node, ONLINE), [2], [1], 7, RowServes)
  }

  function NodeKnown(): Ctl {
    Two(Seven(1, Osm, SERVING), Seven(2, Node, AUTHENTICATED), [2], [1], 7, RowServes)
  }

  // ------------------------------------------------------------------------ steps

  const Comes: Event := Accept(4, true)
  const Asks: Event := AuthRequest(1, 7, HasKey, true, true, true)
  const Proves: Event := AuthReply(1, Osm, true)
  const RegistersAs7: Event := Register(1, 3, 7, OSM_UNREGISTERED, true, true)
  const Serves: Event := Report(1, APP_RUNNING, true)
  const NodeComes: Event := Accept(5, true)
  const NodeAsks: Event := NodeOnline(2, 7, Auth(true, true), true)
  const NodeProves: Event := AuthReply(2, Node, true)

  lemma {:induction false} StepComes()
    requires Shape(Listening().w) && |Listening().tags| == MAX
    ensures Step(Listening(), Comes) == OneCame() && !Disturbs(Listening(), Comes)
  {
    hide EmptyStore, Distinct;
    EmptySlots();
    FirstFreeIs(EmptyStore().slots, 0, 0);
    FirstFreeIs(Listening().w.slots, 0, 1);
    assert Listening().w.slots[1 := Came(1)] == Slots(Came(1), Nobody);
    assert Tags(0) == seq(MAX, i => 0);
  }

  /** The instance typed, and then with its secret and challenge. */
  function Typed1(auth: Auth, tag: int): Ctl {
    Two(Slot(4, 1, -1, Osm, 0, false, true, auth, true), Nobody, [], [1], tag, Begun)
  }

  lemma {:induction false} TypesOne()
    requires Shape(OneCame().w) && |OneCame().tags| == MAX
    ensures Received(OneCame(), 1, Osm) == Typed1(NoAuth, 0)
  {
    hide EmptyStore, Distinct, Slots, Tags;
    Updates();
  }

  lemma {:induction false} UpdatesOne()
    requires Shape(Typed1(Auth(true, true), 7).w)
    ensures Update(Typed1(Auth(true, true), 7).w, 1, 7, ONLINE).w == Asking().w
  {
    hide EmptyStore, Distinct, Slots, Tags;
    Updates();
    var w := SetStatus(Typed1(Auth(true, true), 7).w, 1, ONLINE);
    assert w.slots == Slots(Slot(4, 1, -1, Osm, ONLINE, false, true, Auth(true, true), true), Nobody);
    FindInNone(w.slots, w.osms, 7);
    assert FindByDb(w, Osm, 7) == -1;
  }

  lemma {:induction false} StepAsks()
    requires Shape(OneCame().w) && |OneCame().tags| == MAX
    ensures Step(OneCame(), Asks) == Asking() && !Disturbs(OneCame(), Asks)
  {
    hide EmptyStore, Distinct, Slots, Tags, Received, Update;
    Updates();
    TypesOne();
    UpdatesOne();
    var t := Typed1(NoAuth, 0);
    assert Asked(t, 1, 7, HasKey) == Typed1(Auth(true, false), 7);
    assert SetAuth(Typed1(Auth(true, false), 7).w, 1, Auth(true, true)) == Typed1(Auth(true, true), 7).w;
    assert OnAuthRequest(t, 1, 7, HasKey, true, true, true) == Asking();
  }

  lemma {:induction false} StepProves()
    requires Shape(Asking().w) && |Asking().tags| == MAX
    ensures Step(Asking(), Proves) == Starting() && !Disturbs(Asking(), Proves)
  {
    hide EmptyStore, Distinct, Slots, Tags;
    Updates();
  }

  lemma {:induction false} StepRegisters()
    requires Shape(Starting().w) && |Starting().tags| == MAX
    ensures Step(Starting(), RegistersAs7) == Registered() && !Disturbs(Starting(), RegistersAs7)
  {
    hide EmptyStore, Distinct, Slots, Tags;
    Updates();
  }

  lemma {:induction false} StepServes()
    requires Shape(Registered().w) && |Registered().tags| == MAX
    ensures Step(Registered(), Serves) == Serving() && !Disturbs(Registered(), Serves)
  {
    hide EmptyStore, Distinct, Slots, Tags;
    Updates();
  }

  lemma {:induction false} StepNodeComes()
    requires Shape(Serving().w) && |Serving().tags| == MAX
    ensures Step(Serving(), NodeComes) == TwoCame() && !Disturbs(Serving(), NodeComes)
  {
    hide EmptyStore, Distinct, Slots, Tags;
    Updates();
    FirstFreeIs(Serving().w.slots, 0, 2);
  }

  lemma {:induction false} StepNodeAsks()
    requires Shape(TwoCame().w) && |TwoCame().tags| == MAX
    ensures Step(TwoCame(), NodeAsks) == NodeAsking() && !Disturbs(TwoCame(), NodeAsks)
  {
    hide EmptyStore, Distinct, Slots, Tags;
    Updates();
  }

  lemma {:induction false} StepNodeProves()
    requires Shape(NodeAsking().w) && |NodeAsking().tags| == MAX
    ensures Step(NodeAsking(), NodeProves) == NodeKnown() && !Disturbs(NodeAsking(), NodeProves)
  {
    hide EmptyStore, Distinct, Slots, Tags;
    Updates();
  }

  // ------------------------------------------------------------------------- runs

  const ToStarting: seq<Event> := [] + [Comes] + [Asks] + [Proves]
  const ToNodeAsking: seq<Event> := ToStarting + [RegistersAs7] + [Serves] + [NodeComes] + [NodeAsks]
  const ToNodeKnown: seq<Event> := ToNodeAsking + [NodeProves]

  lemma {:induction false} Ways()
    ensures ToStarting == [] + [Comes] + [Asks] + [Proves]
    ensures ToNodeAsking == ToStarting + [RegistersAs7] + [Serves] + [NodeComes] + [NodeAsks]
    ensures ToNodeKnown == ToNodeAsking + [NodeProves]
  {
  }

  lemma {:induction false} ReachesStarting()
    ensures CtlInv(Listening()) && Agree(Listening())
    ensures Leads(Listening(), ToStarting, Starting()) && Shape(Starting().w) && |Starting().tags| == MAX
    ensures CtlInv(Starting()) && Agree(Starting())
  {
    hide *;
    Ways();
    var c := Listening();
    ListeningHolds();
    NoEvents(c);
    assert Leads(c, [], c) by { LeadsIs(c, [], c); }
    LedFacts(c, [], c);
    StepComes();
    FitAll();
    OneMore(c, [], c, Comes);
    LedFacts(c, [] + [Comes], OneCame());
    StepAsks();
    OneMore(c, [] + [Comes], OneCame(), Asks);
    LedFacts(c, [] + [Comes] + [Asks], Asking());
    StepProves();
    OneMore(c, [] + [Comes] + [Asks], Asking(), Proves);
    LedFacts(c, ToStarting, Starting());
  }

  lemma {:induction false} LeadsIs(c: Ctl, events: seq<Event>, d: Ctl)
    requires CtlInv(c) && Agree(c) && CalmRun(c, events) && RunEvents(c, events) == d
    ensures Leads(c, events, d)
  {
  }

  lemma {:induction false} FitAll()
    ensures Fits(Comes) && Fits(Asks) && Fits(Proves) && Fits(RegistersAs7) && Fits(Serves)
    ensures Fits(NodeComes) && Fits(NodeAsks) && Fits(NodeProves)
  {
  }

  lemma {:induction false} ReachesNode()
    ensures CtlInv(Listening()) && Agree(Listening())
    ensures Leads(Listening(), ToNodeAsking, NodeAsking()) && Shape(NodeAsking().w) && |NodeAsking().tags| == MAX
    ensures CtlInv(NodeAsking()) && Agree(NodeAsking())
    ensures Leads(Listening(), ToNodeKnown, NodeKnown()) && Shape(NodeKnown().w) && |NodeKnown().tags| == MAX
    ensures CtlInv(NodeKnown()) && Agree(NodeKnown())
  {
    hide *;
    Ways();
    var c := Listening();
    ReachesStarting();
    FitAll();
    StepRegisters();
    OneMore(c, ToStarting, Starting(), RegistersAs7);
    var a := ToStarting + [RegistersAs7];
    LedFacts(c, a, Registered());
    StepServes();
    OneMore(c, a, Registered(), Serves);
    var b := a + [Serves];
    LedFacts(c, b, Serving());
    StepNodeComes();
    OneMore(c, b, Serving(), NodeComes);
    var d := b + [NodeComes];
    LedFacts(c, d, TwoCame());
    StepNodeAsks();
    OneMore(c, d, TwoCame(), NodeAsks);
    LedFacts(c, ToNodeAsking, NodeAsking());
    StepNodeProves();
    OneMore(c, ToNodeAsking, NodeAsking(), NodeProves);
    LedFacts(c, ToNodeKnown, NodeKnown());
  }

  // -------------------------------------------------------------- the four events

  /** After the run, event e sets store and database at odds. */
  ghost predicate EndsApart(c: Ctl, events: seq<Event>, e: Event)
    requires CtlInv(c) && Agree(c) && CalmRun(c, events)
  {
    var d := RunEvents(c, events);
    && Shape(d.w) && |d.tags| == MAX && Fits(e) && Agree(d)
    && Shape(Step(d, e).w) && !Agree(Step(d, e))
  }

  lemma {:induction false} Breaks(events: seq<Event>, d: Ctl, e: Event)
    requires CtlInv(Listening()) && Agree(Listening()) && Leads(Listening(), events, d)
    requires Shape(d.w) && Fits(e) && Disturbs(d, e)
    ensures CalmRun(Listening(), events) && EndsApart(Listening(), events, e)
  {
    hide Agree, CtlInv, Step, Shape, Disturbs, Fits;
    LedFacts(Listening(), events, d);
    StepAgreesIff(d, e);
    CtlFacts(Step(d, e), 0);
  }

  /** A node whose number is that of an instance that serves reports. */
  lemma {:induction false} NodeReportBreaksAgreement()
    ensures CtlInv(Listening()) && Agree(Listening()) && CalmRun(Listening(), ToNodeAsking)
    ensures EndsApart(Listening(), ToNodeAsking, Report(2, 2001, true))
  {
    hide Agree, Inv, CtlInv, Step, Shape, CalmRun, RunEvents, Slots, Leads, EndsApart, ToNodeAsking;
    ReachesNode();
    Updates();
    var c := NodeAsking();
    assert 1 in c.w.osms && Contradicts(c.w.slots[1], 7, DOMAIN_RUNNING);
    Breaks(ToNodeAsking, c, Report(2, 2001, true));
  }

  /** It registers as that instance. */
  lemma {:induction false} NodeRegistrationBreaksAgreement()
    ensures CtlInv(Listening()) && Agree(Listening()) && CalmRun(Listening(), ToNodeKnown)
    ensures EndsApart(Listening(), ToNodeKnown, Register(2, 3, 7, OSM_UNREGISTERED, true, true))
  {
    hide Agree, Inv, CtlInv, Step, Shape, CalmRun, RunEvents, Slots, Leads, EndsApart, ToNodeKnown;
    ReachesNode();
    Updates();
    var c := NodeKnown();
    assert 1 in c.w.osms && Contradicts(c.w.slots[1], 7, DOMAIN_RUNNING);
    Breaks(ToNodeKnown, c, Register(2, 3, 7, OSM_UNREGISTERED, true, true));
  }

  /** An instance that is being started registers under a negative tag. */
  lemma {:induction false} NegativeTagBreaksAgreement()
    ensures CtlInv(Listening()) && Agree(Listening()) && CalmRun(Listening(), ToStarting)
    ensures EndsApart(Listening(), ToStarting, Register(1, 3, -5, OSM_UNREGISTERED, true, true))
  {
    hide Agree, Inv, CtlInv, Step, Shape, CalmRun, RunEvents, Slots, Leads, EndsApart, ToStarting;
    ReachesStarting();
    Updates();
    Breaks(ToStarting, Starting(), Register(1, 3, -5, OSM_UNREGISTERED, true, true));
  }

  /** It registers as a node. */
  lemma {:induction false} InstanceAsNodeBreaksAgreement()
    ensures CtlInv(Listening()) && Agree(Listening()) && CalmRun(Listening(), ToStarting)
    ensures EndsApart(Listening(), ToStarting, NodeRegister(1, 7, true, true))
  {
    hide Agree, Inv, CtlInv, Step, Shape, CalmRun, RunEvents, Slots, Leads, EndsApart, ToStarting;
    ReachesStarting();
    Updates();
    Breaks(ToStarting, Starting(), NodeRegister(1, 7, true, true));
  }
}
