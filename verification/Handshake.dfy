/** Mutual authentication of an instance (regclc) and the controller (the eh_process_osm
  * handlers) over one connection.
  *
  * The two programs are the two halves of a state machine; packets travel in order (see
  * Framing for why they arrive whole).  Main results: a run that begins unregistered and
  * hands out a socket has seen its own challenge come back from a controller whose secret
  * gives the same keystream as its key over the whole challenge, having no secret counting
  * as the keystream of zeros, and the controller had marked the instance authenticated
  * before it sent the success reply (ReturnedIsAuthentic); whoever is at the other end, the
  * controller marks it exactly when the challenge prepared last came back, enciphered under
  * the secret if there is one (MarkingIff), and where the database has no key for the
  * instance anybody can register (AnyoneRegistersKeyless); the socket is handed out exactly when this succeeds or
  * Config.status said REGISTERED already (ReturnedIff); and when keys agree, the
  * cipher takes them and nothing fails it is handed out (HonestRunReturns).
  */
module Handshake {
  import opened Options
  import opened Rc4

  const DATA_LEN: nat := 40

  const OSM_UNREGISTERED: int := 7
  const OSM_REGISTERED: int := 9

  const DONE_SUCCESS: int := 1021
  const DONE_FAIL: int := 1022

  const ONLINE: nat := 1
  const AUTHENTICATED: nat := 2
  const REGISTERED: nat := 3

  datatype Msg =
    | AuthRequest(tag: int, data: seq<bv8>)
    | AuthReply(tag: int, data: seq<bv8>)
    | RegisterRequest(tag: int, status: int)
    | RegisterReply(code: int)

  /** Where regclc is. */
  datatype Pc = Fresh | WaitAnswer | WaitChallenge | WaitRegister | Done(returned: bool)

  /** tag, key and status are fields of Config; uuid is the padded challenge. */
  datatype Client = Client(pc: Pc, tag: int, key: string, uuid: seq<bv8>, status: int)

  /** The entity of this connection; a released one is not open. */
  datatype Server = Server(open: bool, status: nat, secret: Option<string>, challenge: Option<seq<bv8>>, tag: int)

  /** keyless: the entity had no secret when the challenge was prepared. */
  datatype Happening =
    | Answered(secret: Option<string>)
    | Prepared(challenge: seq<bv8>, keyless: bool)
    | EchoSeen
    | Marked
    | SuccessSent
    | Returned

  datatype System = System(client: Client, server: Server, toServer: seq<Msg>, toClient: seq<Msg>, log: seq<Happening>)

  /** What db_instance_find_secret finds for a tag.  The key of an instance is empty until
    * its first run. */
  datatype Row = NoRow | NoKey | Key(secret: string)

  /** What the controller's surroundings decide: the row in the database, the challenge it
    * makes up, and which calls fail. */
  datatype Env = Env(row: Row, sentReply: bool, prepared: Option<seq<bv8>>, sentRequest: bool,
                     sentRegister: bool, dbOk: bool)

  function Pad(data: seq<bv8>): (r: seq<bv8>)
    requires |data| <= DATA_LEN
    ensures |r| == DATA_LEN
  {
    data + seq(DATA_LEN - |data|, k => 0)
  }

  /** strncpy into the cleared field. */
  function Field(c: seq<bv8>): (r: seq<bv8>)
    ensures |r| == DATA_LEN
    ensures forall k: nat | k < DATA_LEN :: r[k] == if k < |c| then c[k] else 0
  {
    Pad(if |c| > DATA_LEN then c[..DATA_LEN] else c)
  }

  // --------------------------------------------------------------- the controller

  function Lower(c: bv8): bv8 {
    if 65 <= c <= 90 then c + 32 else c
  }

  /** strcasecmp of the challenge with what was received. */
  predicate SameText(challenge: seq<bv8>, data: seq<bv8>) {
    && |challenge| < |data| && data[|challenge|] == 0
    && forall k: nat | k < |challenge| :: Lower(data[k]) == Lower(challenge[k])
  }

  /** The cipher of libgcrypt takes keys of 40 bits and more. */
  predicate Usable(secret: string) {
    |secret| >= 5
  }

  /** lyauth_verify: -1, 0 or 1. */
  function Verify(s: Server, data: seq<bv8>): int {
    if s.challenge.None? then -1
    else
      match s.secret
      case None => if SameText(s.challenge.value, data) then 1 else 0
      case Some(key) =>
        if !Usable(key) then -1 else if SameText(s.challenge.value, Encoded(key, data)) then 1 else 0
  }

  /** The entity with the secret it has or is given. */
  function WithSecret(sv: Server, tag: int, row: Row): Server {
    if sv.secret.Some? || row.NoRow? then sv
    else sv.(secret := if row.Key? then Some(row.secret) else None, tag := tag)
  }

  /** The cipher under a secret; lyauth_answer leaves the data alone when there is none. */
  function Ciphered(secret: Option<string>, data: seq<bv8>): (r: seq<bv8>)
    requires secret.Some? ==> secret.value != ""
    ensures |r| == |data|
  {
    match secret
    case None => data
    case Some(key) => Encoded(key, data)
  }

  /** eh_process_osm_auth on a request. */
  function OnAuthRequest(s: System, m: Msg, env: Env): System
    requires m.AuthRequest?
  {
    var sv := WithSecret(s.server, m.tag, env.row);
    var s0 := s.(server := sv);
    if s.server.secret.None? && env.row.NoRow? then s
    else if (sv.secret.Some? && !Usable(sv.secret.value)) || !env.sentReply then s0
    else
      var s1 := s0.(toClient := s.toClient + [AuthReply(m.tag, Ciphered(sv.secret, m.data))],
                    log := s.log + [Answered(sv.secret)]);
      match env.prepared
      case None => s1.(server := sv.(challenge := None))
      case Some(c) =>
        var s2 := s1.(server := sv.(challenge := Some(c)), log := s1.log + [Prepared(c, sv.secret.None?)]);
        if !env.sentRequest then s2
        else
          s2.(toClient := s1.toClient + [AuthRequest(m.tag, Field(c))],
              server := s2.server.(status := ONLINE))
  }

  /** ... and on a reply. */
  function OnAuthReply(s: System, m: Msg): System
    requires m.AuthReply?
  {
    var v := Verify(s.server, m.data);
    if v < 0 then s
    else if v == 0 then s.(server := Released())
    else if s.server.status >= AUTHENTICATED then s
    else s.(server := s.server.(status := AUTHENTICATED), log := s.log + [Marked])
  }

  function Released(): Server {
    Server(false, 0, None, None, 0)
  }

  /** eh_process_osm_register */
  function OnRegister(s: System, m: Msg, env: Env): System
    requires m.RegisterRequest?
  {
    if s.server.status >= REGISTERED then s
    else
      var s0 := s.(server := s.server.(tag := m.tag));
      var success := s.server.status >= AUTHENTICATED && m.status == OSM_UNREGISTERED;
      if !env.sentRegister then s0
      else if !success then s0.(toClient := s.toClient + [RegisterReply(DONE_FAIL)])
      else
        var s1 := s0.(toClient := s.toClient + [RegisterReply(DONE_SUCCESS)], log := s.log + [SuccessSent]);
        if env.dbOk then s1.(server := s0.server.(status := REGISTERED)) else s1
  }

  /** The controller takes the next packet. */
  function ServerStep(s: System, env: Env): System {
    if !s.server.open || s.toServer == [] then s
    else
      var m := s.toServer[0];
      var t := s.(toServer := s.toServer[1..]);
      match m
      case AuthRequest(_, _) => OnAuthRequest(t, m, env)
      case AuthReply(_, _) => OnAuthReply(t, m)
      case RegisterRequest(_, _) => OnRegister(t, m, env)
      case RegisterReply(_) => t
  }

  // -------------------------------------------------------------------- the instance

  /** The finally clause: whatever happened, Config.status decides. */
  function Finish(s: System): System {
    s.(client := s.client.(pc := Done(s.client.status == OSM_REGISTERED)))
  }

  /** regclc sends its challenge. */
  function ClientStart(s: System): System
    requires s.client.key != ""
  {
    if !s.client.pc.Fresh? then s
    else s.(client := s.client.(pc := WaitAnswer),
            toServer := s.toServer + [AuthRequest(s.client.tag, Encoded(s.client.key, s.client.uuid))])
  }

  /** regclc receives a packet. */
  function ClientStep(s: System): System
    requires s.client.key != ""
  {
    if s.toClient == [] || s.client.pc.Fresh? || s.client.pc.Done? then s
    else
      var m := s.toClient[0];
      var t := s.(toClient := s.toClient[1..]);
      match s.client.pc
      case WaitAnswer =>
        if m.AuthReply? && m.tag == s.client.tag && m.data == s.client.uuid then
          t.(client := s.client.(pc := WaitChallenge), log := s.log + [EchoSeen])
        else Finish(t)
      case WaitChallenge =>
        if m.AuthRequest? then
          t.(client := s.client.(pc := WaitRegister),
             toServer := s.toServer + [AuthReply(s.client.tag, Encoded(s.client.key, m.data)),
                                       RegisterRequest(s.client.tag, OSM_UNREGISTERED)])
        else Finish(t)
      case WaitRegister =>
        if m.RegisterReply? && m.code == DONE_SUCCESS then
          Finish(t.(client := s.client.(status := OSM_REGISTERED), log := s.log + [Returned]))
        else Finish(t)
      case _ => s
  }

  /** A timeout, a closed socket or any other failure. */
  function ClientFails(s: System): System {
    if s.client.pc.Done? || s.client.pc.Fresh? then s else Finish(s)
  }

  datatype Action = Start | Receive | Fail | Handle(env: Env)

  function Step(s: System, a: Action): (r: System)
    requires s.client.key != ""
    ensures r.client.key == s.client.key && r.client.tag == s.client.tag && r.client.uuid == s.client.uuid
  {
    match a
    case Start => ClientStart(s)
    case Receive => ClientStep(s)
    case Fail => ClientFails(s)
    case Handle(env) => ServerStep(s, env)
  }

  function RunAll(s: System, actions: seq<Action>): (r: System)
    requires s.client.key != ""
    ensures r.client.key == s.client.key && r.client.tag == s.client.tag && r.client.uuid == s.client.uuid
    decreases |actions|
  {
    if actions == [] then s else RunAll(Step(s, actions[0]), actions[1..])
  }

  /** A new connection; status is what Config.status holds from before. */
  function Connected(tag: int, key: string, uuid: seq<bv8>, status: int): System {
    System(Client(Fresh, tag, key, uuid, status), Server(true, 0, None, None, 0), [], [], [])
  }

  // ------------------------------------------------------------------ the invariant

  /** Each happening comes after what has to precede it. */
  predicate Ordered(log: seq<Happening>) {
    forall k: nat | k < |log| ::
      && (log[k].SuccessSent? ==> Marked in log[..k])
      && (log[k].Returned? ==> EchoSeen in log[..k] && SuccessSent in log[..k])
  }

  lemma {:induction false} OrderedAppend(log: seq<Happening>, h: Happening)
    requires Ordered(log)
    requires h.SuccessSent? ==> Marked in log
    requires h.Returned? ==> EchoSeen in log && SuccessSent in log
    ensures Ordered(log + [h])
    ensures forall g :: g in log + [h] <==> g in log || g == h
  {
    var more := log + [h];
    forall k: nat | k < |more|
      ensures more[k].SuccessSent? ==> Marked in more[..k]
      ensures more[k].Returned? ==> EchoSeen in more[..k] && SuccessSent in more[..k]
    {
      if k < |log| {
        assert more[..k] == log[..k];
      } else {
        assert more[..k] == log;
      }
    }
  }

  /** The keystream of a secret; of none, zeros. */
  function SecretMask(secret: Option<string>, k: nat): bv8
    requires secret.Some? ==> secret.value != ""
  {
    match secret
    case None => 0
    case Some(key) => Mask(key, k)
  }

  predicate NotEmpty(secret: Option<string>) {
    secret.Some? ==> secret.value != ""
  }

  /** Key and secret give the same keystream over the length of the challenge. */
  predicate KeysAgree(key: string, secret: Option<string>) {
    key != "" && NotEmpty(secret) && forall k: nat | k < DATA_LEN :: Mask(key, k) == SecretMask(secret, k)
  }

  /** The controller answered under such a secret. */
  ghost predicate Echoed(c: Client, log: seq<Happening>) {
    exists secret :: Answered(secret) in log && KeysAgree(c.key, secret)
  }

  predicate ToServerOk(c: Client, m: Msg)
    requires c.key != ""
  {
    m.AuthRequest? ==> m.data == Encoded(c.key, c.uuid)
  }

  ghost predicate ToClientOk(c: Client, log: seq<Happening>, m: Msg)
    requires c.key != ""
  {
    match m
    case AuthReply(_, data) =>
      exists secret ::
        Answered(secret) in log && NotEmpty(secret) && data == Ciphered(secret, Encoded(c.key, c.uuid))
    case RegisterReply(code) => code == DONE_SUCCESS ==> SuccessSent in log
    case _ => true
  }

  ghost predicate SysInv(s: System) {
    && s.client.key != "" && |s.client.uuid| == DATA_LEN
    && Ordered(s.log)
    && (forall m | m in s.toServer :: ToServerOk(s.client, m))
    && (forall m | m in s.toClient :: ToClientOk(s.client, s.log, m))
    && (s.server.status >= AUTHENTICATED ==> Marked in s.log)
    && (s.client.pc.WaitChallenge? || s.client.pc.WaitRegister? ==> EchoSeen in s.log)
    && (EchoSeen in s.log ==> Echoed(s.client, s.log))
  }

  /** Config.status and the outcome, for a run that began with status. */
  predicate Outcome(s: System, status: int) {
    && (s.client.status == OSM_REGISTERED <==> status == OSM_REGISTERED || Returned in s.log)
    && (s.client.pc.Done? ==> s.client.pc.returned == (s.client.status == OSM_REGISTERED))
    && (Returned in s.log ==> s.client.pc.Done?)
  }

  lemma {:induction false} InvMember(s: System, m: Msg)
    requires SysInv(s)
    ensures m in s.toClient ==> ToClientOk(s.client, s.log, m)
    ensures m in s.toServer ==> ToServerOk(s.client, m)
  {
  }

  /** Queues may lose their first packet and gain good ones. */
  lemma {:induction false} StillOk(s: System, t: System, addServer: seq<Msg>, addClient: seq<Msg>)
    requires SysInv(s) && t.client.key == s.client.key && t.client.uuid == s.client.uuid
    requires forall m | m in t.toServer :: m in s.toServer || m in addServer
    requires forall m | m in t.toClient :: m in s.toClient || m in addClient
    requires forall m | m in addServer :: ToServerOk(t.client, m)
    requires forall m | m in addClient :: ToClientOk(t.client, t.log, m)
    requires Ordered(t.log) && (forall h | h in s.log :: h in t.log)
    requires t.server.status >= AUTHENTICATED ==> Marked in t.log
    requires t.client.pc.WaitChallenge? || t.client.pc.WaitRegister? ==> EchoSeen in t.log
    requires EchoSeen in t.log ==> Echoed(t.client, t.log)
    ensures SysInv(t)
  {
    forall m | m in t.toClient ensures ToClientOk(t.client, t.log, m) {
      if m in s.toClient {
        assert ToClientOk(s.client, s.log, m);
        if m.AuthReply? {
          var secret :| Answered(secret) in s.log && NotEmpty(secret)
                        && m.data == Ciphered(secret, Encoded(s.client.key, s.client.uuid));
          assert Answered(secret) in t.log;
        }
      }
    }
    forall m | m in t.toServer ensures ToServerOk(t.client, m) {
      if m in s.toServer {
        assert ToServerOk(s.client, m);
      }
    }
  }

  lemma {:induction false} ServerKeeps(s: System, env: Env)
    requires SysInv(s)
    ensures SysInv(ServerStep(s, env))
  {
    hide Verify, Pad, Ordered, Encoded, Echoed, ToServerOk, ToClientOk, SysInv;
    SysFacts(s);
    if s.server.open && s.toServer != [] {
      var m := s.toServer[0];
      var r := ServerStep(s, env);
      assert forall x | x in s.toServer[1..] :: x in s.toServer;
      InvMember(s, m);
      match m
      case AuthRequest(tag, data) =>
        AuthRequestKeeps(s, env, r);
      case AuthReply(_, data) =>
        OrderedAppend(s.log, Marked);
        EchoedSame(s.client, r.client, s.log, r.log);
        StillOk(s, r, [], []);
      case RegisterRequest(_, _) =>
        if Marked in s.log {
          OrderedAppend(s.log, SuccessSent);
        }
        RepliesOk(s.client, r.log);
        EchoedSame(s.client, r.client, s.log, r.log);
        StillOk(s, r, [],
                [RegisterReply(DONE_FAIL)] + if SuccessSent in r.log then [RegisterReply(DONE_SUCCESS)] else []);
      case RegisterReply(_) => StillOk(s, r, [], []);
    }
  }

  lemma {:induction false} SysFacts(s: System)
    requires SysInv(s)
    ensures s.client.key != "" && |s.client.uuid| == DATA_LEN && Ordered(s.log)
    ensures s.server.status >= AUTHENTICATED ==> Marked in s.log
    ensures s.client.pc.WaitChallenge? || s.client.pc.WaitRegister? ==> EchoSeen in s.log
    ensures EchoSeen in s.log ==> Echoed(s.client, s.log)
  {
  }

  lemma {:induction false} RepliesOk(c: Client, log: seq<Happening>)
    requires c.key != ""
    ensures ToClientOk(c, log, RegisterReply(DONE_FAIL))
    ensures SuccessSent in log ==> ToClientOk(c, log, RegisterReply(DONE_SUCCESS))
  {
  }

  lemma {:induction false} EchoOk(c: Client, log: seq<Happening>, tag: int, data: seq<bv8>, secret: Option<string>)
    requires c.key != "" && NotEmpty(secret) && ToServerOk(c, AuthRequest(tag, data)) && Answered(secret) in log
    ensures ToClientOk(c, log, AuthReply(tag, Ciphered(secret, data)))
  {
  }

  lemma {:induction false} RequestOk(c: Client, log: seq<Happening>, tag: int, data: seq<bv8>)
    requires c.key != ""
    ensures ToClientOk(c, log, AuthRequest(tag, data))
  {
  }

  lemma {:induction false} AuthRequestKeeps(s: System, env: Env, r: System)
    requires SysInv(s) && s.server.open && s.toServer != [] && s.toServer[0].AuthRequest?
    requires r == ServerStep(s, env)
    ensures SysInv(r)
  {
    hide Verify, Ordered, Encoded, Echoed, ToServerOk, ToClientOk, SysInv;
    SysFacts(s);
    var m := s.toServer[0];
    assert forall x | x in s.toServer[1..] :: x in s.toServer;
    InvMember(s, m);
    var secret := WithSecret(s.server, m.tag, env.row).secret;
    var reply: seq<Msg> := [];
    if (secret.Some? ==> Usable(secret.value)) && Answered(secret) in r.log {
      EchoOk(s.client, r.log, m.tag, m.data, secret);
      reply := [AuthReply(m.tag, Ciphered(secret, m.data))];
    }
    var request: seq<Msg> := [];
    OrderedAppend(s.log, Answered(secret));
    if env.prepared.Some? {
      RequestOk(s.client, r.log, m.tag, Field(env.prepared.value));
      request := [AuthRequest(m.tag, Field(env.prepared.value))];
      OrderedAppend(s.log + [Answered(secret)], Prepared(env.prepared.value, secret.None?));
    }
    assert r.client == s.client;
    EchoedSame(s.client, r.client, s.log, r.log);
    StillOk(s, r, [], reply + request);
  }

  lemma {:induction false} ClientKeeps(s: System)
    requires SysInv(s)
    ensures SysInv(ClientStep(s))
  {
    hide Verify, Ordered, Encoded, Echoed, ToServerOk, ToClientOk, SysInv;
    SysFacts(s);
    if s.toClient != [] && !s.client.pc.Fresh? && !s.client.pc.Done? {
      var m := s.toClient[0];
      var r := ClientStep(s);
      assert forall x | x in s.toClient[1..] :: x in s.toClient;
      InvMember(s, m);
      match s.client.pc
      case WaitAnswer =>
        OrderedAppend(s.log, EchoSeen);
        if m.AuthReply? && m.data == s.client.uuid {
          EchoMeansAgreement(s.client, s.log, m);
        }
        EchoedSame(s.client, r.client, s.log, r.log);
        StillOk(s, r, [], []);
      case WaitChallenge =>
        EchoedSame(s.client, r.client, s.log, r.log);
        SentOk(s.client, m);
        StillOk(s, r, if m.AuthRequest? then Answers(s.client, m) else [], []);
      case WaitRegister =>
        if m.RegisterReply? && m.code == DONE_SUCCESS {
          SuccessWasSent(s.client, s.log, m);
          OrderedAppend(s.log, Returned);
        }
        EchoedSame(s.client, r.client, s.log, r.log);
        StillOk(s, r, [], []);
    }
  }

  function Answers(c: Client, m: Msg): seq<Msg>
    requires c.key != "" && m.AuthRequest?
  {
    [AuthReply(c.tag, Encoded(c.key, m.data)), RegisterRequest(c.tag, OSM_UNREGISTERED)]
  }

  lemma {:induction false} SentOk(c: Client, m: Msg)
    requires c.key != ""
    ensures m.AuthRequest? ==> forall x | x in Answers(c, m) :: forall d: Client | d.key == c.key :: ToServerOk(d, x)
  {
  }

  lemma {:induction false} EchoedSame(c: Client, d: Client, log: seq<Happening>, more: seq<Happening>)
    requires d.key == c.key && forall h | h in log :: h in more
    ensures Echoed(c, log) ==> Echoed(d, more)
  {
  }

  lemma {:induction false} SuccessWasSent(c: Client, log: seq<Happening>, m: Msg)
    requires c.key != "" && ToClientOk(c, log, m) && m.RegisterReply? && m.code == DONE_SUCCESS
    ensures SuccessSent in log
  {
  }

  lemma {:induction false} XorNothing(x: bv8, g: bv8)
    ensures x ^ g == x <==> 0 == g
  {
    assert x ^ (x ^ g) == g;
    assert x ^ x == 0;
  }

  /** The data comes back exactly when the keystreams agree over its length. */
  lemma {:induction false} CipherBackIff(key: string, secret: Option<string>, data: seq<bv8>)
    requires key != "" && NotEmpty(secret)
    ensures Ciphered(secret, Encoded(key, data)) == data <==>
      forall k: nat | k < |data| :: Mask(key, k) == SecretMask(secret, k)
  {
    hide Mask;
    if secret.Some? {
      EncodeBackIff(key, secret.value, data);
    } else {
      var e := Encoded(key, data);
      forall k: nat | k < |data| ensures e[k] == data[k] <==> Mask(key, k) == 0 {
        XorNothing(data[k], Mask(key, k));
      }
    }
  }

  /** The challenge came back, so the keystreams agree over its whole length. */
  lemma {:induction false} EchoMeansAgreement(c: Client, log: seq<Happening>, m: Msg)
    requires c.key != "" && |c.uuid| == DATA_LEN && ToClientOk(c, log, m) && m.AuthReply? && m.data == c.uuid
    ensures Echoed(c, log)
  {
    hide Encoded, Mask, Ciphered, SecretMask;
    var secret :| Answered(secret) in log && NotEmpty(secret) && m.data == Ciphered(secret, Encoded(c.key, c.uuid));
    CipherBackIff(c.key, secret, c.uuid);
    assert KeysAgree(c.key, secret);
  }

  lemma {:induction false} StepKeeps(s: System, a: Action)
    requires SysInv(s)
    ensures SysInv(Step(s, a))
  {
    hide ServerStep, ClientStep, Ordered, Encoded, Echoed, ToClientOk, SysInv;
    SysFacts(s);
    match a
    case Start =>
      var r := ClientStart(s);
      EchoedSame(s.client, r.client, s.log, r.log);
      StillOk(s, r, [AuthRequest(s.client.tag, Encoded(s.client.key, s.client.uuid))], []);
    case Receive => ClientKeeps(s);
    case Fail =>
      var r := ClientFails(s);
      EchoedSame(s.client, r.client, s.log, r.log);
      StillOk(s, r, [], []);
    case Handle(env) => ServerKeeps(s, env);
  }

  lemma {:induction false} StepOutcome(s: System, a: Action, status: int)
    requires s.client.key != "" && Outcome(s, status)
    ensures Outcome(Step(s, a), status)
  {
    hide Encoded, Verify, Pad;
  }

  lemma {:induction false} RunKeeps(s: System, actions: seq<Action>, status: int)
    requires SysInv(s) && Outcome(s, status)
    ensures SysInv(RunAll(s, actions)) && Outcome(RunAll(s, actions), status)
    decreases |actions|
  {
    hide SysInv, Outcome, Step;
    SysFacts(s);
    if actions != [] {
      StepKeeps(s, actions[0]);
      StepOutcome(s, actions[0], status);
      RunKeeps(Step(s, actions[0]), actions[1..], status);
    }
  }

  lemma {:induction false} Begins(tag: int, key: string, uuid: seq<bv8>, status: int)
    requires key != "" && |uuid| == DATA_LEN
    ensures SysInv(Connected(tag, key, uuid, status)) && Outcome(Connected(tag, key, uuid, status), status)
  {
  }

  // ------------------------------------------------------- what marking stands for

  /** The packets of any peer, one by one, and what surrounds the controller at each. */
  function Serve(s: System, inputs: seq<(Msg, Env)>): System
    decreases |inputs|
  {
    if inputs == [] then s
    else
      var n := |inputs| - 1;
      ServerStep(Serve(s, inputs[..n]).(toServer := [inputs[n].0]), inputs[n].1)
  }

  /** The challenge prepared last, with whether there was a secret then. */
  function LastPrepared(log: seq<Happening>): Option<Happening> {
    if log == [] then None
    else if log[|log| - 1].Prepared? then Some(log[|log| - 1])
    else LastPrepared(log[..|log| - 1])
  }

  lemma {:induction false} LastAppend(log: seq<Happening>, h: Happening)
    ensures LastPrepared(log + [h]) == if h.Prepared? then Some(h) else LastPrepared(log)
  {
    assert (log + [h])[..|log|] == log;
  }

  /** The entity's challenge is the one prepared last; without a secret now, there was none
    * then. */
  predicate ChallengeIsLast(s: System) {
    s.server.challenge.Some? ==>
      && LastPrepared(s.log).Some? && LastPrepared(s.log).value.Prepared?
      && LastPrepared(s.log).value.challenge == s.server.challenge.value
      && (s.server.secret.None? ==> LastPrepared(s.log).value.keyless)
  }

  lemma {:induction false} ServeKeepsLast(s: System, m: Msg, env: Env)
    requires ChallengeIsLast(s)
    ensures ChallengeIsLast(ServerStep(s.(toServer := [m]), env))
  {
    hide Ciphered, Verify, Field, LastPrepared;
    var r := ServerStep(s.(toServer := [m]), env);
    LastAppend(s.log, Marked);
    LastAppend(s.log, SuccessSent);
    var secret := if m.AuthRequest? then WithSecret(s.server, m.tag, env.row).secret else None;
    LastAppend(s.log, Answered(secret));
    if env.prepared.Some? {
      LastAppend(s.log + [Answered(secret)], Prepared(env.prepared.value, secret.None?));
    }
  }

  lemma {:induction false} ServedLast(s: System, inputs: seq<(Msg, Env)>)
    requires ChallengeIsLast(s)
    ensures ChallengeIsLast(Serve(s, inputs))
    decreases |inputs|
  {
    hide ChallengeIsLast, ServerStep;
    if inputs != [] {
      var n := |inputs| - 1;
      ServedLast(s, inputs[..n]);
      ServeKeepsLast(Serve(s, inputs[..n]), inputs[n].0, inputs[n].1);
    }
  }

  /** The same letter, once small and once capital. */
  predicate TwoCases(x: bv8, y: bv8) {
    (65 <= x <= 90 && y == x + 32) || (65 <= y <= 90 && x == y + 32)
  }

  lemma {:induction false} LowerSame(x: bv8, y: bv8)
    ensures Lower(x) == Lower(y) <==> x == y || TwoCases(x, y)
  {
  }

  /** What lyauth_verify compares: the reply, deciphered if there is a secret. */
  function Plainly(secret: Option<string>, data: seq<bv8>): seq<bv8> {
    if secret.Some? && |secret.value| >= 5 then Encoded(secret.value, data) else data
  }

  lemma {:induction false} SameTextIs(c: seq<bv8>, d: seq<bv8>)
    ensures SameText(c, d) <==>
      && |c| < |d| && d[|c|] == 0
      && forall k: nat | k < |c| :: d[k] == c[k] || TwoCases(d[k], c[k])
  {
    hide Lower, TwoCases;
    forall k: nat | k < |c| && |c| < |d| ensures Lower(d[k]) == Lower(c[k]) <==> d[k] == c[k] || TwoCases(d[k], c[k]) {
      LowerSame(d[k], c[k]);
    }
  }

  /** What a reply does.  Nothing, if there is no challenge or the cipher does not take the
    * secret.  If it brings back the challenge byte for byte but for the case of letters,
    * and then a NUL, the entity is marked authenticated, unless it was already.  Any other
    * reply releases the entity. */
  lemma {:induction false} ReplyOutcome(s: System, m: Msg, env: Env)
    requires s.server.open && m.AuthReply?
    ensures var r := ServerStep(s.(toServer := [m]), env);
      var d := Plainly(s.server.secret, m.data);
      && r.client == s.client && r.toClient == s.toClient && r.toServer == []
      && if s.server.challenge.None? || (s.server.secret.Some? && |s.server.secret.value| < 5) then
           r.server == s.server && r.log == s.log
         else
           var c := s.server.challenge.value;
           if |c| < |d| && d[|c|] == 0 && forall k: nat | k < |c| :: d[k] == c[k] || TwoCases(d[k], c[k]) then
             if s.server.status >= AUTHENTICATED then r.server == s.server && r.log == s.log
             else r.server == s.server.(status := AUTHENTICATED) && r.log == s.log + [Marked]
           else
             && !r.server.open && r.server.status == 0 && r.server.secret.None? && r.server.challenge.None?
             && r.log == s.log
  {
    hide SameText, Encoded, TwoCases;
    if s.server.challenge.Some? {
      SameTextIs(s.server.challenge.value, Plainly(s.server.secret, m.data));
    }
  }

  /** What a request does.  Without a secret yet, and without a row for its tag, nothing.  An
    * entity takes the secret of the row once.  If the cipher takes it, or there is none, the
    * request is answered; then, when a challenge could be made and sent in 40 bytes, the
    * entity is ONLINE. */
  lemma {:induction false} RequestOutcome(s: System, m: Msg, env: Env)
    requires s.server.open && m.AuthRequest?
    ensures var r := ServerStep(s.(toServer := [m]), env);
      var asked := s.server.secret.None? && !env.row.NoRow?;
      var secret := if asked && env.row.Key? then Some(env.row.secret) else s.server.secret;
      var kept := s.server.(secret := secret, tag := if asked then m.tag else s.server.tag);
      && r.client == s.client && r.toServer == []
      && if s.server.secret.None? && !asked then r.server == s.server && r.toClient == s.toClient && r.log == s.log
         else if (secret.Some? && |secret.value| < 5) || !env.sentReply then
           r.server == kept && r.toClient == s.toClient && r.log == s.log
         else
           var answer := AuthReply(m.tag, Plainly(secret, m.data));
           if env.prepared.Some? && env.sentRequest then
             && r.server == kept.(challenge := env.prepared, status := 1)
             && |r.toClient| == |s.toClient| + 2 && r.toClient[..|s.toClient| + 1] == s.toClient + [answer]
             && var c := r.toClient[|s.toClient| + 1];
                c.AuthRequest? && c.tag == m.tag && |c.data| == 40
                && forall k: nat | k < 40 ::
                     c.data[k] == if k < |env.prepared.value| then env.prepared.value[k] else 0
           else r.server == kept.(challenge := env.prepared) && r.toClient == s.toClient + [answer]
  {
    hide Encoded, Pad;
  }

  /** Whatever a peer sends, it is marked authenticated exactly by a reply with which the
    * challenge prepared last came back, but for the case of letters; in clear only if the
    * row in the database had no key when it was prepared.  (Sending that challenge may have
    * failed.) */
  lemma {:induction false} MarkingIff(tag: int, key: string, uuid: seq<bv8>, status: int, inputs: seq<(Msg, Env)>,
          m: Msg, env: Env)
    ensures var s := Serve(Connected(tag, key, uuid, status), inputs);
      Marked in ServerStep(s.(toServer := [m]), env).log[|s.log|..] <==>
        && s.server.open && m.AuthReply? && s.server.status < AUTHENTICATED && s.server.challenge.Some?
        && (s.server.secret.Some? ==> |s.server.secret.value| >= 5)
        && var c, d := s.server.challenge.value, Plainly(s.server.secret, m.data);
           && |c| < |d| && d[|c|] == 0
           && forall k: nat | k < |c| :: d[k] == c[k] || TwoCases(d[k], c[k])
    ensures var s := Serve(Connected(tag, key, uuid, status), inputs);
      s.server.challenge.Some? ==>
        || LastPrepared(s.log) == Some(Prepared(s.server.challenge.value, true))
        || (LastPrepared(s.log) == Some(Prepared(s.server.challenge.value, false)) && s.server.secret.Some?)
  {
    hide Serve, Encoded, Field, LastPrepared, Ciphered, TwoCases, Verify, SameText;
    ServedLast(Connected(tag, key, uuid, status), inputs);
    var s := Serve(Connected(tag, key, uuid, status), inputs);
    AppendedIs(s.log);
    if s.server.open && m.AuthReply? {
      ReplyOutcome(s, m, env);
    }
    if s.server.challenge.Some? {
      var p := LastPrepared(s.log).value;
      assert p == Prepared(s.server.challenge.value, p.keyless);
    }
  }

  /** What a registration does: it is answered, favourably if and only if the entity is
    * authenticated and the status claimed is 7, and becomes REGISTERED if the row can be
    * written.  One that comes again is ignored. */
  lemma {:induction false} RegisterOutcome(s: System, m: Msg, env: Env)
    requires s.server.open && m.RegisterRequest?
    ensures var r := ServerStep(s.(toServer := [m]), env);
      var good := s.server.status == 2 && m.status == 7;
      && r.client == s.client && r.toServer == []
      && if s.server.status >= 3 then r.server == s.server && r.toClient == s.toClient && r.log == s.log
         else
           && r.toClient == (if !env.sentRegister then s.toClient
                             else s.toClient + [RegisterReply(if good then 1021 else 1022)])
           && r.log == (if env.sentRegister && good then s.log + [SuccessSent] else s.log)
           && r.server == s.server.(tag := m.tag,
                                    status := if env.sentRegister && good && env.dbOk then 3 else s.server.status)
  {
  }

  lemma {:induction false} AppendedIs(log: seq<Happening>)
    ensures forall h :: (log + [h])[|log|..] == [h]
    ensures forall h, g :: (log + [h] + [g])[|log|..] == [h, g]
    ensures log[|log|..] == []
  {
  }

  /** A row without a key: whoever sends back the challenge as it came is registered, with
    * no secret at all. */
  lemma {:induction false} AnyoneRegistersKeyless(tag: int, key: string, uuid: seq<bv8>, status: int,
          data: seq<bv8>, env: Env)
    requires env.row.NoKey? && env.sentReply && env.sentRequest && env.sentRegister && env.dbOk
    requires env.prepared.Some? && Plain(env.prepared.value)
    ensures var s := Serve(Connected(tag, key, uuid, status),
                           [(AuthRequest(tag, data), env), (AuthReply(tag, Field(env.prepared.value)), env),
                            (RegisterRequest(tag, OSM_UNREGISTERED), env)]);
      s.server.open && s.server.status == REGISTERED && s.server.secret.None? && s.toClient != []
  {
    hide SameText, Pad, ServerStep;
    var c := env.prepared.value;
    PadVerifies(c);
    var s0 := Connected(tag, key, uuid, status);
    var a, b, d := (AuthRequest(tag, data), env), (AuthReply(tag, Field(c)), env),
                   (RegisterRequest(tag, OSM_UNREGISTERED), env);
    var one: seq<(Msg, Env)> := [a];
    assert [a, b, d][..2] == [a, b] && [a, b][..1] == one && one[..0] == [];
    var s1 := Serve(s0, one);
    assert Serve(s0, one[..0]) == s0;
    assert s1.server == Server(true, ONLINE, None, Some(c), tag) by { FirstAnswer(s0, a.0, env); }
    var s2 := Serve(s0, [a, b]);
    assert s2.server == Server(true, AUTHENTICATED, None, Some(c), tag) by { ClearReply(s1, b.0, env); }
    ThenRegisters(s2, d.0, env);
  }

  lemma {:induction false} FirstAnswer(s: System, m: Msg, env: Env)
    requires m.AuthRequest? && s.server.open && s.server.secret.None?
    requires env.row.NoKey? && env.sentReply && env.prepared.Some? && env.sentRequest
    ensures ServerStep(s.(toServer := [m]), env).server == Server(true, ONLINE, None, env.prepared, m.tag)
  {
    hide Field;
  }

  lemma {:induction false} ClearReply(s: System, m: Msg, env: Env)
    requires m.AuthReply? && s.server.open && s.server.secret.None? && s.server.status < AUTHENTICATED
    requires s.server.challenge.Some? && SameText(s.server.challenge.value, m.data)
    ensures ServerStep(s.(toServer := [m]), env).server == s.server.(status := AUTHENTICATED)
  {
  }

  lemma {:induction false} ThenRegisters(s: System, m: Msg, env: Env)
    requires m.RegisterRequest? && m.status == OSM_UNREGISTERED && s.server.open && s.server.status == AUTHENTICATED
    requires env.sentRegister && env.dbOk
    ensures var r := ServerStep(s.(toServer := [m]), env);
      r.server == s.server.(status := REGISTERED, tag := m.tag) && r.toClient != []
  {
  }

  // -------------------------------------------------------------------- the theorems

  /** In any run that begins unregistered, a returned socket means: the client saw its
    * challenge come back, the controller had answered under a secret whose keystream is
    * that of the client's key, and before it sent the success reply it had marked the
    * instance authenticated. */
  lemma {:induction false} ReturnedIsAuthentic(tag: int, key: string, uuid: seq<bv8>, status: int, actions: seq<Action>)
    requires key != "" && |uuid| == DATA_LEN && status != OSM_REGISTERED
    requires RunAll(Connected(tag, key, uuid, status), actions).client.pc == Done(true)
    ensures var log := RunAll(Connected(tag, key, uuid, status), actions).log;
      exists k: nat, m: nat | k < m < |log| :: log[k] == SuccessSent && log[m] == Returned
        && Marked in log[..k] && EchoSeen in log[..m]
    ensures var log := RunAll(Connected(tag, key, uuid, status), actions).log;
      exists secret :: Answered(secret) in log && KeysAgree(key, secret)
  {
    hide RunAll, KeysAgree;
    var s0 := Connected(tag, key, uuid, status);
    Begins(tag, key, uuid, status);
    RunKeeps(s0, actions, status);
    var s := RunAll(s0, actions);
    assert Returned in s.log;
    var m: nat :| m < |s.log| && s.log[m] == Returned;
    assert SuccessSent in s.log[..m] && EchoSeen in s.log[..m];
    var k: nat :| k < m && s.log[..m][k] == SuccessSent;
    assert s.log[k] == SuccessSent && Marked in s.log[..k];
    assert EchoSeen in s.log;
  }

  /** When regclc is done it has returned the socket exactly when Config.status was
    * REGISTERED to begin with or the success reply came in. */
  lemma {:induction false} ReturnedIff(tag: int, key: string, uuid: seq<bv8>, status: int, actions: seq<Action>)
    requires key != "" && |uuid| == DATA_LEN
    ensures var s := RunAll(Connected(tag, key, uuid, status), actions);
      s.client.pc.Done? ==> (s.client.pc.returned <==> status == OSM_REGISTERED || Returned in s.log)
  {
    hide RunAll, SysInv;
    Begins(tag, key, uuid, status);
    RunKeeps(Connected(tag, key, uuid, status), actions, status);
  }

  /** A status left over from an earlier registration: the socket is returned although
    * nothing was checked. */
  lemma {:induction false} StaleStatusReturns(tag: int, key: string, uuid: seq<bv8>)
    requires key != "" && |uuid| == DATA_LEN
    ensures var s := RunAll(Connected(tag, key, uuid, OSM_REGISTERED), [Start, Fail]);
      s.client.pc == Done(true) && s.log == []
  {
    hide Encoded;
    var s0 := Connected(tag, key, uuid, OSM_REGISTERED);
    var s1 := Step(s0, Start);
    assert [Start, Fail][1..] == [Fail] && [Fail][1..] == [];
    assert RunAll(s1, [Fail]) == RunAll(Step(s1, Fail), []);
  }

  /** uuidgen's text: shorter than the packet's field and without NULs. */
  predicate Plain(c: seq<bv8>) {
    |c| < DATA_LEN && forall k: nat | k < |c| :: c[k] != 0
  }

  lemma {:induction false} PadVerifies(c: seq<bv8>)
    requires Plain(c)
    ensures SameText(c, Pad(c))
  {
    assert forall k: nat | k < |c| :: Pad(c)[k] == c[k];
  }

  lemma {:induction false} AgreeingKeysEcho(key: string, secret: string, data: seq<bv8>)
    requires KeysAgree(key, Some(secret)) && |data| == DATA_LEN
    ensures Encoded(secret, Encoded(key, data)) == data
  {
    hide Encoded, Mask;
    EncodeBackIff(key, secret, data);
    assert forall k: nat | k < DATA_LEN :: Mask(key, k) == SecretMask(Some(secret), k);
  }

  /** Nothing fails and the database has an agreeing secret: the socket is returned if the
    * cipher takes the secret, and otherwise the instance gets no answer. */
  lemma {:induction false} HonestRunReturns(tag: int, key: string, uuid: seq<bv8>, status: int, env: Env)
    requires |uuid| == DATA_LEN && env.row.Key? && KeysAgree(key, Some(env.row.secret))
    requires env.sentReply && env.sentRequest && env.sentRegister && env.dbOk
    requires env.prepared.Some? && Plain(env.prepared.value)
    ensures key != ""
    ensures var s := RunAll(Connected(tag, key, uuid, status),
                            [Start, Handle(env), Receive, Receive, Handle(env), Handle(env), Receive]);
      if Usable(env.row.secret) then s.client.pc == Done(true) && s.server.status == REGISTERED && s.server.open
      else s.client.pc == WaitAnswer && s.toClient == []
  {
    hide Encoded, Mask, Pad, SameText, KeysAgree;
    KeyIsSet(key, env.row.secret);
    var c := env.prepared.value;
    var s0 := Connected(tag, key, uuid, status);
    AgreeingKeysEcho(key, env.row.secret, uuid);
    AgreeingKeysEcho(key, env.row.secret, Pad(c));
    PadVerifies(c);
    SevenSteps(s0, Start, Handle(env), Receive, Receive, Handle(env), Handle(env), Receive);
    var s1 := Step(s0, Start);
    var s2 := Step(s1, Handle(env));
    if !Usable(env.row.secret) {
      assert s2.toClient == [] && s2.toServer == [] && s2.client.pc == WaitAnswer;
      return;
    }
    assert s2.toClient == [AuthReply(tag, uuid), AuthRequest(tag, Pad(c))];
    assert s2.toServer == [];
    var s3 := Step(s2, Receive);
    assert s3.client.pc.WaitChallenge? && s3.toClient == [AuthRequest(tag, Pad(c))] && s3.toServer == [];
    var s4 := Step(s3, Receive);
    assert s4.toServer == [AuthReply(tag, Encoded(key, Pad(c))), RegisterRequest(tag, OSM_UNREGISTERED)];
    var s5 := Step(s4, Handle(env));
    var s6 := Step(s5, Handle(env));
    var s7 := Step(s6, Receive);
  }

  lemma {:induction false} KeyIsSet(key: string, secret: string)
    requires KeysAgree(key, Some(secret))
    ensures key != "" && secret != ""
  {
  }

  lemma {:induction false} SevenSteps(s: System, a: Action, b: Action, c: Action, d: Action, e: Action, f: Action,
          g: Action)
    requires s.client.key != ""
    ensures RunAll(s, [a, b, c, d, e, f, g]) == Step(Step(Step(Step(Step(Step(Step(s, a), b), c), d), e), f), g)
  {
    hide Step;
    StepsOn(s, a, [b, c, d, e, f, g]);
    StepsOn(Step(s, a), b, [c, d, e, f, g]);
    var s2 := Step(Step(s, a), b);
    StepsOn(s2, c, [d, e, f, g]);
    StepsOn(Step(s2, c), d, [e, f, g]);
    var s4 := Step(Step(s2, c), d);
    StepsOn(s4, e, [f, g]);
    StepsOn(Step(s4, e), f, [g]);
    StepsOn(Step(Step(s4, e), f), g, []);
  }

  lemma {:induction false} StepsOn(s: System, a: Action, rest: seq<Action>)
    requires s.client.key != ""
    ensures Step(s, a).client.key != "" && RunAll(s, [a] + rest) == RunAll(Step(s, a), rest)
  {
    assert ([a] + rest)[1..] == rest;
  }
}
