/** Runs of one DHCP server and any number of clients over a network that may lose, duplicate,
    reorder and misdeliver messages. */
module DhcpNetwork {
  import opened Basics
  import opened DhcpAnswers
  import opened DhcpProtocol

  /** net holds every message ever sent: each may be delivered any number of times, to anyone. */
  datatype System = System(server: Server, clients: map<nat, Client>, net: set<Message>, now: real)

  datatype Event =
    | ServerGets(m: Message)
    | ClientGets(mac: nat, m: Message, x: nat, at: real)
    | TimerFires(mac: nat, kind: TimerKind, x: nat)

  /** No message and no client uses transaction id x yet. */
  predicate Fresh(s: System, x: nat) {
    (forall m :: m in s.net ==> m.xid != x) && forall mac :: mac in s.clients ==> s.clients[mac].xid != x
  }

  predicate InTime(s: System, at: real) {
    s.now <= at && forall mac :: mac in s.clients ==> NotOverdue(s.clients[mac], at)
  }

  /** Events at a client: a message once its socket is open, or the first timer that is due. */
  predicate Enabled(s: System, e: Event) {
    match e
    case ServerGets(m) => m in s.net
    case ClientGets(mac, m, x, at) =>
      mac in s.clients && s.clients[mac].state != Idle && m in s.net && InTime(s, at) && Fresh(s, x)
    case TimerFires(mac, kind, x) =>
      mac in s.clients && Due(s.clients[mac], kind).Some? && InTime(s, Due(s.clients[mac], kind).value) && Fresh(s, x)
  }

  /** What a client event does to the client. */
  function React(s: System, e: Event): Reaction
    requires Enabled(s, e) && !e.ServerGets?
  {
    match e
    case ClientGets(mac, m, x, at) => HandleMessage(s.clients[mac], at, m, x)
    case TimerFires(mac, kind, x) => HandleTimer(s.clients[mac], Due(s.clients[mac], kind).value, kind, x)
  }

  function At(s: System, e: Event): real
    requires Enabled(s, e) && !e.ServerGets?
  {
    if e.ClientGets? then e.at else Due(s.clients[e.mac], e.kind).value
  }

  function Sending(net: set<Message>, m: Option<Message>): set<Message> {
    if m.Some? then net + {m.value} else net
  }

  ghost predicate Next(s: System, e: Event, s': System) {
    Enabled(s, e) &&
    match e
    case ServerGets(m) =>
      exists server, r :: ServerStep(s.server, m, server, r) && s' == s.(server := server, net := Sending(s.net, r))
    case _ =>
      var r := React(s, e);
      r.Sent? && s' == s.(clients := s.clients[e.mac := r.client], net := Sending(s.net, r.message), now := At(s, e))
  }

  // ---------- the invariant ----------

  predicate ConfigOk(c: Config) { c.ip != UNSPECIFIED && c.begin != UNSPECIFIED && c.leaseTime > 0.0 }

  predicate MessageOk(s: Server, m: Message) {
    if m.reply then
      ReplyOk(m) && (m.kind == Offer || m.kind == Ack ==> Recorded(s, m.yiaddr, m.chaddr)) &&
      (m.kind == Offer ==> m.serverId == s.config.ip)
    else if m.kind == Discover then m.requested == UNSPECIFIED
    else m.kind == Request && (m.serverId != s.config.ip ==> m.ciaddr != UNSPECIFIED && Recorded(s, m.ciaddr, m.chaddr))
  }

  predicate ClientOk(s: Server, c: Client, mac: nat) {
    c.mac == mac && TimersOk(c) &&
    (c.lease.Some? ==> Recorded(s, c.lease.value.ip, mac) && c.lease.value.serverId == s.config.ip) &&
    (c.address.Some? ==> Recorded(s, c.address.value, mac)) &&
    (HasLease(c) ==> c.address == Some(c.lease.value.ip))
  }

  /** From the acknowledgement to the end of the lease. */
  predicate HasLease(c: Client) { c.lease.Some? && (c.state == Bound || c.state == Renewing || c.state == Rebinding) }

  /** m asks for what c waits for. */
  predicate Asks(c: Client, m: Message) {
    match c.state
    case Selecting => IsDiscover(c, m)
    case Requesting => IsAcceptance(c, m)
    case Renewing => IsRenewal(c, m)
    case Rebinding => IsRenewal(c, m)
    case _ => false
  }

  predicate Waits(c: Client) {
    c.state == Selecting || c.state == Requesting || c.state == Renewing || c.state == Rebinding
  }

  /** A client that waits for an answer has asked for it. */
  predicate Asked(net: set<Message>, c: Client) { Waits(c) ==> exists m :: m in net && Asks(c, m) }

  /** Messages with the client's current transaction id belong to it. */
  predicate Owns(c: Client, m: Message) { c.state != Idle && m.xid == c.xid ==> m.chaddr == c.mac }

  predicate Inv(s: System) {
    ConfigOk(s.server.config) && TableOk(s.server) &&
    (forall m :: m in s.net ==> MessageOk(s.server, m)) &&
    (forall mac :: mac in s.clients ==> ClientOk(s.server, s.clients[mac], mac) && NotOverdue(s.clients[mac], s.now)) &&
    (forall mac :: mac in s.clients ==> Asked(s.net, s.clients[mac])) &&
    forall mac, m :: mac in s.clients && m in s.net ==> Owns(s.clients[mac], m)
  }

  /** Before anything has happened. */
  predicate Initial(s: System) {
    ConfigOk(s.server.config) && s.server.leased == map[] && s.net == {} &&
    forall mac :: mac in s.clients ==>
      var c := s.clients[mac];
      c.mac == mac && c.state == Idle && TimersOk(c) && s.now <= c.start.value
  }

  lemma InitialInv(s: System)
    requires Initial(s)
    ensures Inv(s)
  {
    forall mac | mac in s.clients ensures NotOverdue(s.clients[mac], s.now) {
      var c := s.clients[mac];
      forall k | Due(c, k).Some? ensures s.now <= Due(c, k).value {
        assert k == StartDhcp;
      }
    }
  }

  // ---------- the server's step ----------

  lemma RecordsLast(s: Server, t: Server, m: Message)
    requires MessageOk(s, m) && RecordsKept(s, t)
    ensures MessageOk(t, m)
  {
  }

  /** The server answers to the one who asked, and tells the truth. */
  lemma AnswerOk(s: Server, m: Message, t: Server, r: Option<Message>)
    requires ConfigOk(s.config) && TableOk(s) && MessageOk(s, m) && ServerStep(s, m, t, r)
    ensures r.Some? ==> MessageOk(t, r.value) && r.value.xid == m.xid && r.value.chaddr == m.chaddr
  {
    FirstFreeIsFirst(s, 0);
  }

  lemma ServerKeeps(s: System, m: Message, server: Server, r: Option<Message>)
    requires Inv(s) && m in s.net && ServerStep(s.server, m, server, r)
    ensures Inv(s.(server := server, net := Sending(s.net, r)))
  {
    TableKept(s.server, m, server, r);
    AnswerOk(s.server, m, server, r);
    var s' := s.(server := server, net := Sending(s.net, r));
    hide ServerStep, TableOk, MessageOk, TimersOk, NotOverdue, Asks, Waits;
    forall mac | mac in s'.clients ensures Asked(s'.net, s'.clients[mac]) {
      assert Asked(s.net, s.clients[mac]);
    }
    forall n | n in s'.net ensures MessageOk(server, n) {
      if n in s.net { RecordsLast(s.server, server, n); }
    }
    forall mac | mac in s'.clients ensures ClientOk(server, s'.clients[mac], mac) {
      assert ClientOk(s.server, s.clients[mac], mac);
    }
    forall mac, n | mac in s'.clients && n in s'.net ensures Owns(s'.clients[mac], n) {
      assert Owns(s.clients[mac], m);
      if n in s.net { assert Owns(s.clients[mac], n); }
    }
  }

  // ---------- a client's step ----------

  /** What a client does is right for itself: it never fails, learns only what the server recorded
      for it, and sends only what the server may act on, under the fresh id. */
  ghost predicate ReactionOk(s: Server, c: Client, x: nat, now: real, r: Reaction) {
    r.Sent? && ClientOk(s, r.client, c.mac) && NotOverdue(r.client, now) && r.client.state != Idle &&
    match r.message
    case None => r.client.xid == c.xid && c.state != Idle && (r.client == c || !Waits(r.client))
    case Some(m) => MessageOk(s, m) && m.chaddr == c.mac && m.xid == x == r.client.xid && Asks(r.client, m)
  }

  lemma TimerOk(s: Server, c: Client, now: real, kind: TimerKind, x: nat)
    requires ConfigOk(s.config) && TableOk(s) && ClientOk(s, c, c.mac) && Due(c, kind) == Some(now) &&
             NotOverdue(c, now)
    ensures ReactionOk(s, c, x, now, HandleTimer(c, now, kind, x))
  {
    TimersKept(c, now, kind, x);
    hide NotOverdue;
  }

  lemma ReceiptOk(s: Server, c: Client, now: real, m: Message, x: nat)
    requires ConfigOk(s.config) && TableOk(s) && ClientOk(s, c, c.mac) && NotOverdue(c, now) && c.state != Idle
    requires MessageOk(s, m) && Owns(c, m)
    ensures ReactionOk(s, c, x, now, HandleMessage(c, now, m, x))
  {
    assert ReplyOk(m);
    MessageKept(c, now, m, x);
    hide NotOverdue;
  }

  lemma ClientKeeps(s: System, mac: nat, x: nat, at: real, r: Reaction)
    requires Inv(s) && mac in s.clients && Fresh(s, x) && InTime(s, at) &&
             ReactionOk(s.server, s.clients[mac], x, at, r)
    ensures Inv(s.(clients := s.clients[mac := r.client], net := Sending(s.net, r.message), now := at))
  {
    hide MessageOk, TimersOk, NotOverdue, TableOk, Recorded, Asks, Waits;
    var net := Sending(s.net, r.message);
    var clients := s.clients[mac := r.client];
    forall other | other in clients ensures Asked(net, clients[other]) {
      assert Asked(s.net, s.clients[if other in s.clients then other else mac]);
      if other == mac && r.message.Some? { assert r.message.value in net; }
    }
  }

  /** Nothing that can happen to a client makes it fail. */
  lemma NoErrors(s: System, e: Event)
    requires Inv(s) && Enabled(s, e) && !e.ServerGets?
    ensures ReactionOk(s.server, s.clients[e.mac], e.x, At(s, e), React(s, e))
    ensures e.TimerFires? ==> (e.kind == T2 ==> s.clients[e.mac].state == Renewing) && e.kind != LeaseTimeout
  {
    var c := s.clients[e.mac];
    assert ClientOk(s.server, c, e.mac);
    match e
    case ClientGets(mac, m, x, at) => ReceiptOk(s.server, c, at, m, x);
    case TimerFires(mac, kind, x) =>
      TimerOk(s.server, c, Due(c, kind).value, kind, x);
      TimersKept(c, Due(c, kind).value, kind, x);
  }

  lemma NextKeeps(s: System, e: Event, s': System)
    requires Inv(s) && Next(s, e, s')
    ensures Inv(s') && RecordsKept(s.server, s'.server)
  {
    match e
    case ServerGets(m) =>
      var server, r :| ServerStep(s.server, m, server, r) && s' == s.(server := server, net := Sending(s.net, r));
      TableKept(s.server, m, server, r);
      ServerKeeps(s, m, server, r);
    case _ =>
      NoErrors(s, e);
      ClientKeeps(s, e.mac, e.x, At(s, e), React(s, e));
      RecordsSame(s.server);
  }

  // ---------- runs ----------

  ghost predicate Run(states: seq<System>, events: seq<Event>) {
    |states| == |events| + 1 && Initial(states[0]) &&
    forall i :: 0 <= i < |events| ==> Next(states[i], events[i], states[i + 1])
  }

  lemma {:induction false} RunKeeps(states: seq<System>, events: seq<Event>, i: nat)
    requires Run(states, events) && i < |states|
    ensures Inv(states[i])
  {
    if i == 0 {
      InitialInv(states[0]);
    } else {
      RunKeeps(states, events, i - 1);
      assert Next(states[i - 1], events[i - 1], states[i]);
      NextKeeps(states[i - 1], events[i - 1], states[i]);
    }
  }

  /** In every state of every run every configured address is the one the server records for that
      client, so no two clients hold the same one; it lies in the pool. */
  lemma AddressesAreLeased(states: seq<System>, events: seq<Event>, i: nat, mac: nat)
    requires Run(states, events) && i < |states|
    requires mac in states[i].clients && states[i].clients[mac].address.Some?
    ensures var ip := states[i].clients[mac].address.value;
      && Recorded(states[i].server, ip, mac)
      && states[i].server.config.begin <= ip < states[i].server.config.begin + states[i].server.config.maxClients
      && forall other :: other in states[i].clients && states[i].clients[other].address == Some(ip) ==> other == mac
  {
    RunKeeps(states, events, i);
    assert ClientOk(states[i].server, states[i].clients[mac], mac);
  }

  /** In every state of every run a client that is bound, or renews or rebinds its lease, has the leased
      address in use. */
  lemma LeasedIsInUse(states: seq<System>, events: seq<Event>, i: nat, mac: nat)
    requires Run(states, events) && i < |states| && mac in states[i].clients
    ensures var c := states[i].clients[mac];
      c.state == Bound || c.state == Renewing || c.state == Rebinding ==>
        c.lease.Some? && c.address == Some(c.lease.value.ip)
  {
    RunKeeps(states, events, i);
    assert ClientOk(states[i].server, states[i].clients[mac], mac);
  }

  /** In every run nothing that can happen to a client next raises one of its errors. */
  lemma RunsRaiseNoError(states: seq<System>, events: seq<Event>, i: nat, e: Event)
    requires Run(states, events) && i < |states| && Enabled(states[i], e) && !e.ServerGets?
    ensures React(states[i], e).Sent?
    ensures e.TimerFires? ==> (e.kind == T2 ==> states[i].clients[e.mac].state == Renewing) && e.kind != LeaseTimeout
  {
    RunKeeps(states, events, i);
    NoErrors(states[i], e);
  }

  /** In every state of every run every client has a timer pending that its state handles. */
  lemma ClientsNeverStall(states: seq<System>, events: seq<Event>, i: nat, mac: nat)
    requires Run(states, events) && i < |states| && mac in states[i].clients
    ensures var c := states[i].clients[mac];
      exists kind :: Due(c, kind).Some? && kind != LeaseTimeout && (kind == T2 ==> c.state == Renewing)
  {
    RunKeeps(states, events, i);
    assert ClientOk(states[i].server, states[i].clients[mac], mac);
    AlwaysATimer(states[i].clients[mac]);
  }

  lemma RunStep(states: seq<System>, events: seq<Event>, i: nat)
    requires Run(states, events) && i + 1 < |states|
    ensures i < |events| && Next(states[i], events[i], states[i + 1])
  {
  }

  lemma RecordsChain(a: Server, b: Server, c: Server)
    requires RecordsKept(a, b) && RecordsKept(b, c)
    ensures RecordsKept(a, c)
  {
  }

  lemma {:induction false} RecordsNeverLost(states: seq<System>, events: seq<Event>, i: nat, j: nat)
    requires Run(states, events) && i <= j < |states|
    ensures RecordsKept(states[i].server, states[j].server)
    decreases j
  {
    hide Run, Next, RecordsKept, Inv;
    if i == j {
      RecordsSame(states[i].server);
    } else {
      RecordsNeverLost(states, events, i, j - 1);
      RunKeeps(states, events, j - 1);
      RunStep(states, events, j - 1);
      NextKeeps(states[j - 1], events[j - 1], states[j]);
      RecordsChain(states[i].server, states[j - 1].server, states[j].server);
    }
  }

  /** A client is configured with the same address whenever it is. */
  lemma SameAddressForLife(states: seq<System>, events: seq<Event>, i: nat, j: nat, mac: nat)
    requires Run(states, events) && i <= j < |states| && mac in states[i].clients && mac in states[j].clients
    requires states[i].clients[mac].address.Some? && states[j].clients[mac].address.Some?
    ensures states[i].clients[mac].address == states[j].clients[mac].address
  {
    RecordsNeverLost(states, events, i, j);
    RunKeeps(states, events, j);
    AddressesAreLeased(states, events, i, mac);
    AddressesAreLeased(states, events, j, mac);
    assert Recorded(states[j].server, states[i].clients[mac].address.value, mac);
  }
}
