/** DHCP: what the server and a client do with a message or a timer, as functions of their states. */
module DhcpProtocol {
  import opened Basics

  /** Addresses are numbers; 0 is the unspecified one. */
  const UNSPECIFIED: nat := 0

  datatype Kind = Discover | Offer | Request | Decline | Ack | Nak

  datatype Times = Times(renewal: real, rebinding: real, lease: real)

  const NO_TIMES := Times(0.0, 0.0, 0.0)

  datatype Message = Message(reply: bool, kind: Kind, xid: nat, chaddr: nat, ciaddr: nat, yiaddr: nat,
                             requested: nat, serverId: nat, times: Times)

  // ---------- the server ----------

  datatype Lease = Lease(ip: nat, mac: nat, xid: nat, leased: bool)

  /** The pool starts at begin; network is the part of an address that its mask keeps. */
  datatype Config = Config(ip: nat, begin: nat, maxClients: nat, leaseTime: real, network: nat -> nat)

  datatype Server = Server(config: Config, leased: map<nat, Lease>)

  /** found is an address leased to the MAC, if there is one. */
  predicate ByMac(leased: map<nat, Lease>, mac: nat, found: Option<nat>) {
    match found
    case Some(ip) => ip in leased && leased[ip].mac == mac
    case None => forall ip :: ip in leased ==> leased[ip].mac != mac
  }

  /** The first pool address from place i on that is not in use. */
  function FirstFree(s: Server, i: nat): (r: Option<nat>)
    decreases s.config.maxClients - i
  {
    if i >= s.config.maxClients then None
    else
      var ip := s.config.begin + i;
      if ip !in s.leased || !s.leased[ip].leased then Some(ip) else FirstFree(s, i + 1)
  }

  /** The address for a new client: the one it asks for, if it does, or a free one. */
  function Available(s: Server, requested: nat): Option<nat> {
    if requested != UNSPECIFIED then Some(requested) else FirstFree(s, 0)
  }

  function LeaseTimes(s: Server): Times {
    Times(s.config.leaseTime * 0.5, s.config.leaseTime * 0.875, s.config.leaseTime)
  }

  function OfferOf(s: Server, l: Lease): Message {
    Message(true, Offer, l.xid, l.mac, 0, l.ip, 0, s.config.ip, LeaseTimes(s))
  }

  function AckOf(s: Server, l: Lease): Message {
    Message(true, Ack, l.xid, l.mac, l.ip, l.ip, 0, s.config.ip, LeaseTimes(s))
  }

  function NakOf(s: Server, m: Message): Message {
    Message(true, Nak, m.xid, m.chaddr, 0, 0, 0, s.config.ip, NO_TIMES)
  }

  /** The lease is filed under its address. */
  function File(s: Server, ip: nat, l: Lease): Server { s.(leased := s.leased[ip := l]) }

  /** Acknowledge the lease filed under ip. */
  function Acknowledge(s: Server, m: Message, ip: nat): (Server, Option<Message>)
    requires ip in s.leased
  {
    var l := s.leased[ip].(xid := m.xid, leased := true);
    (File(s, ip, l), Some(AckOf(s, l)))
  }

  function HandleDiscover(s: Server, m: Message, found: Option<nat>): (Server, Option<Message>)
    requires ByMac(s.leased, m.chaddr, found)
  {
    match found
    case Some(ip) =>
      var l := s.leased[ip].(xid := m.xid);
      (File(s, ip, l), Some(OfferOf(s, l)))
    case None =>
      match Available(s, m.requested)
      case None => (s, None)
      case Some(ip) =>
        // an entry that is free already keeps its address field
        var l := Lease(if ip in s.leased && !s.leased[ip].leased then s.leased[ip].ip else ip, m.chaddr, m.xid, true);
        (File(s, ip, l), Some(OfferOf(s, l)))
  }

  function HandleRequest(s: Server, m: Message, found: Option<nat>): (Server, Option<Message>)
    requires ByMac(s.leased, m.chaddr, found)
  {
    if m.serverId == s.config.ip then
      // in response to an offer
      if found.Some? && s.leased[found.value].ip == m.requested then Acknowledge(s, m, found.value)
      else (s, Some(NakOf(s, m)))
    else if m.ciaddr == UNSPECIFIED then
      // init-reboot
      if m.requested !in s.leased then (s, None)
      else if s.config.network(m.requested) == s.config.network(s.leased[m.requested].ip) then
        Acknowledge(s, m, m.requested)
      else (s, Some(NakOf(s, m)))
    else
      // renewing or rebinding
      if m.ciaddr in s.leased then Acknowledge(s, m, m.ciaddr) else (s, Some(NakOf(s, m)))
  }

  function Handle(s: Server, m: Message, found: Option<nat>): (Server, Option<Message>)
    requires ByMac(s.leased, m.chaddr, found)
  {
    if m.reply then (s, None)
    else if m.kind == Discover then HandleDiscover(s, m, found)
    else if m.kind == Request then HandleRequest(s, m, found)
    else (s, None)
  }

  /** The server may go from s to s' on receiving m, sending r. */
  ghost predicate ServerStep(s: Server, m: Message, s': Server, r: Option<Message>) {
    exists found :: ByMac(s.leased, m.chaddr, found) && (s', r) == Handle(s, m, found)
  }

  /** Entries lie in the pool, under their own addresses, in use, one per MAC. */
  predicate TableOk(s: Server) {
    (forall ip :: ip in s.leased ==>
      s.config.begin <= ip < s.config.begin + s.config.maxClients && s.leased[ip].ip == ip && s.leased[ip].leased) &&
    forall p, q :: p in s.leased && q in s.leased && s.leased[p].mac == s.leased[q].mac ==> p == q
  }

  /** ip is recorded for mac. */
  predicate Recorded(s: Server, ip: nat, mac: nat) { ip in s.leased && s.leased[ip].mac == mac }

  lemma {:induction false} FirstFreeIsFirst(s: Server, i: nat)
    ensures match FirstFree(s, i)
            case Some(ip) =>
              s.config.begin + i <= ip < s.config.begin + s.config.maxClients &&
              (ip !in s.leased || !s.leased[ip].leased)
            case None =>
              forall ip :: s.config.begin + i <= ip < s.config.begin + s.config.maxClients ==>
                ip in s.leased && s.leased[ip].leased
    decreases s.config.maxClients - i
  {
    if i < s.config.maxClients { FirstFreeIsFirst(s, i + 1); }
  }

  /** s' has all the records of s. */
  ghost predicate RecordsKept(s: Server, s': Server) {
    s'.config == s.config && forall ip, mac :: Recorded(s, ip, mac) ==> Recorded(s', ip, mac)
  }

  lemma FileKept(s: Server, ip: nat, l: Lease)
    requires TableOk(s) && l.ip == ip && l.leased && s.config.begin <= ip < s.config.begin + s.config.maxClients
    requires if ip in s.leased then s.leased[ip].mac == l.mac
             else forall q :: q in s.leased ==> s.leased[q].mac != l.mac
    ensures TableOk(File(s, ip, l)) && RecordsKept(s, File(s, ip, l))
  {
    var t := File(s, ip, l);
    assert forall p :: p in t.leased ==> t.leased[p] == if p == ip then l else s.leased[p];
  }

  lemma AcknowledgeKept(s: Server, m: Message, ip: nat)
    requires TableOk(s) && ip in s.leased
    ensures var t := Acknowledge(s, m, ip).0;
      TableOk(t) && RecordsKept(s, t)
  {
    FileKept(s, ip, s.leased[ip].(xid := m.xid, leased := true));
  }

  lemma DiscoverKept(s: Server, m: Message, found: Option<nat>)
    requires TableOk(s) && ByMac(s.leased, m.chaddr, found) && m.requested == UNSPECIFIED
    ensures var t := HandleDiscover(s, m, found).0;
      TableOk(t) && RecordsKept(s, t)
  {
    if found.Some? {
      FileKept(s, found.value, s.leased[found.value].(xid := m.xid));
    } else if FirstFree(s, 0).Some? {
      FirstFreeIsFirst(s, 0);
      var ip := FirstFree(s, 0).value;
      FileKept(s, ip, Lease(ip, m.chaddr, m.xid, true));
    }
  }

  lemma RequestKept(s: Server, m: Message, found: Option<nat>)
    requires TableOk(s) && ByMac(s.leased, m.chaddr, found)
    ensures var t := HandleRequest(s, m, found).0;
      TableOk(t) && RecordsKept(s, t)
  {
    hide TableOk, RecordsKept, Acknowledge;
    if found.Some? { AcknowledgeKept(s, m, found.value); }
    if m.requested in s.leased { AcknowledgeKept(s, m, m.requested); }
    if m.ciaddr in s.leased { AcknowledgeKept(s, m, m.ciaddr); }
    assert TableOk(s) && RecordsKept(s, s) by { RecordsSame(s); }
  }

  lemma RecordsSame(s: Server)
    ensures RecordsKept(s, s)
  {
  }

  /** Whatever these clients send, the table stays in order and no record is ever lost. */
  lemma TableKept(s: Server, m: Message, s': Server, r: Option<Message>)
    requires TableOk(s) && ServerStep(s, m, s', r) && (!m.reply && m.kind == Discover ==> m.requested == UNSPECIFIED)
    ensures TableOk(s') && RecordsKept(s, s')
  {
    hide TableOk, RecordsKept, HandleRequest, HandleDiscover;
    var found :| ByMac(s.leased, m.chaddr, found) && (s', r) == Handle(s, m, found);
    RecordsSame(s);
    if !m.reply && m.kind == Discover { DiscoverKept(s, m, found); }
    RequestKept(s, m, found);
  }

  /** A discovery by a new client goes unanswered exactly if the pool is full. */
  lemma RefusedOnlyWhenFull(s: Server, m: Message, s': Server, r: Option<Message>)
    requires TableOk(s) && ServerStep(s, m, s', r) && !m.reply && m.kind == Discover && m.requested == UNSPECIFIED
    requires forall ip :: ip in s.leased ==> s.leased[ip].mac != m.chaddr
    ensures r == None <==> forall ip :: s.config.begin <= ip < s.config.begin + s.config.maxClients ==> ip in s.leased
    ensures r != None ==> exists ip :: ip !in s.leased && Recorded(s', ip, m.chaddr) && r.value.yiaddr == ip
  {
    FirstFreeIsFirst(s, 0);
  }

  // ---------- a client ----------

  datatype State = Idle | Init | InitReboot | Rebooting | Selecting | Requesting | Bound | Renewing | Rebinding

  datatype Timeout = WaitOffer | WaitAck

  datatype TimerKind = StartDhcp | To | T1 | T2 | LeaseTimeout

  datatype ClientLease = ClientLease(ip: nat, serverId: nat, times: Times)

  /** Times are when a scheduled timer fires; address is what the interface is configured with. */
  datatype Client = Client(mac: nat, state: State, xid: nat, lease: Option<ClientLease>, address: Option<nat>,
                           start: Option<real>, to: Option<real>, toKind: Timeout, t1: Option<real>, t2: Option<real>,
                           leaseTimer: Option<real>)

  const RESPONSE_TIMEOUT := 60.0

  /** A client's reaction: its new state and what it sends, or one of its errors. */
  datatype Reaction = Sent(client: Client, message: Option<Message>) | WrongStateForT2 | InvalidState | NoLease

  function DiscoverOf(c: Client): Message { Message(false, Discover, c.xid, c.mac, 0, 0, 0, 0, NO_TIMES) }

  function ScheduleTo(c: Client, now: real, kind: Timeout): Client {
    c.(to := Some(now + RESPONSE_TIMEOUT), toKind := kind)
  }

  function CancelAll(c: Client): Client { c.(t1 := None, t2 := None, to := None, leaseTimer := None) }

  /** The request of each state, with the fresh transaction id x. */
  function SendRequest(c: Client, x: nat): Reaction {
    var d := c.(xid := x);
    if c.state == InitReboot || c.state == Requesting || c.state == Renewing || c.state == Rebinding then
      if c.lease.None? then NoLease
      else
        var ip := c.lease.value.ip;
        if c.state == InitReboot then Sent(d, Some(Message(false, Request, x, c.mac, 0, 0, ip, 0, NO_TIMES)))
        else if c.state == Requesting then
          Sent(d, Some(Message(false, Request, x, c.mac, 0, 0, ip, c.lease.value.serverId, NO_TIMES)))
        else Sent(d, Some(Message(false, Request, x, c.mac, ip, 0, 0, 0, NO_TIMES)))
    else InvalidState
  }

  function InitClient(c: Client, now: real, x: nat): Reaction {
    var d := CancelAll(c).(xid := x);
    Sent(ScheduleTo(d, now, WaitOffer).(state := Selecting), Some(DiscoverOf(d)))
  }

  function UnbindLease(c: Client): Client { CancelAll(c).(address := None) }

  /** A timer that was scheduled fires. */
  function HandleTimer(c: Client, now: real, kind: TimerKind, x: nat): Reaction {
    match kind
    case StartDhcp =>
      var d := c.(start := None);
      if c.lease.Some? then
        match SendRequest(d.(state := InitReboot), x)
        case Sent(e, m) => Sent(ScheduleTo(e, now, WaitAck).(state := Rebooting), m)
        case error => error
      else InitClient(d.(state := Init), now, x)
    case To => InitClient(c.(to := None), now, x)
    case T1 => SendRequest(ScheduleTo(c.(t1 := None, state := Renewing), now, WaitAck), x)
    case T2 =>
      if c.state == Renewing then
        match SendRequest(CancelAll(c.(state := Rebinding)), x)
        case Sent(e, m) => Sent(ScheduleTo(e, now, WaitAck), m)
        case error => error
      else WrongStateForT2
    case LeaseTimeout => InitClient(UnbindLease(c.(leaseTimer := None)).(state := Init), now, x)
  }

  function RecordOffer(c: Client, m: Message): Client {
    if m.yiaddr != UNSPECIFIED then c.(lease := Some(ClientLease(m.yiaddr, m.serverId, NO_TIMES))) else c
  }

  /** An acknowledgement: the lease's times are recorded, its address configured, and the timers
      set. */
  function HandleAck(c: Client, now: real, m: Message): Reaction {
    if c.lease.None? then NoLease
    else
      var l := if m.yiaddr != UNSPECIFIED then c.lease.value.(times := m.times) else c.lease.value;
      Sent(c.(lease := Some(l), to := None, t1 := Some(now + l.times.renewal), t2 := Some(now + l.times.rebinding),
              address := Some(l.ip), leaseTimer := Some(now + l.times.lease), state := Bound), None)
  }

  /** A message arrives. */
  function HandleMessage(c: Client, now: real, m: Message, x: nat): Reaction {
    if !m.reply || m.xid != c.xid then Sent(c, None)
    else
      match c.state
      case Idle => InvalidState
      case InitReboot => InvalidState
      case Init => Sent(c, None)
      case Bound => Sent(c, None)
      case Selecting =>
        if m.kind == Offer then SendRequest(RecordOffer(ScheduleTo(c, now, WaitAck).(state := Requesting), m), x)
        else Sent(c, None)
      case Requesting =>
        if m.kind == Ack then HandleAck(c, now, m) else if m.kind == Nak then InitClient(c, now, x) else Sent(c, None)
      case _ =>
        if m.kind == Ack then HandleAck(c, now, m)
        else if m.kind == Nak then InitClient(UnbindLease(c), now, x)
        else Sent(c, None)
  }

  /** Is this timer scheduled, and when does it fire? */
  function Due(c: Client, kind: TimerKind): Option<real> {
    match kind
    case StartDhcp => c.start
    case To => c.to
    case T1 => c.t1
    case T2 => c.t2
    case LeaseTimeout => c.leaseTimer
  }

  /** No scheduled timer of c fires before now. */
  predicate NotOverdue(c: Client, now: real) { forall kind :: Due(c, kind).Some? ==> now <= Due(c, kind).value }

  // ---------- what every state of a client's run keeps ----------

  /** In each state exactly the timers it handles are scheduled; while bound T1 comes before T2,
      and T2 always before the end of the lease. */
  predicate TimersOk(c: Client) {
    (c.start.Some? <==> c.state == Idle) &&
    (c.lease.Some? <== c.state != Idle && c.state != Selecting) &&
    match c.state
    case Idle => c.to.None? && c.t1.None? && c.t2.None? && c.leaseTimer.None? && c.lease.None? && c.address.None?
    case Selecting => c.to.Some? && c.toKind == WaitOffer && c.t1.None? && c.t2.None? && c.leaseTimer.None?
    case Requesting => c.to.Some? && c.toKind == WaitAck && c.t1.None? && c.t2.None? && c.leaseTimer.None?
    case Bound =>
      c.to.None? && c.t1.Some? && c.t2.Some? && c.leaseTimer.Some? && c.t1.value < c.t2.value < c.leaseTimer.value
    case Renewing =>
      c.to.Some? && c.toKind == WaitAck && c.t1.None? && c.t2.Some? && c.leaseTimer.Some? &&
      c.t2.value < c.leaseTimer.value
    case Rebinding => c.to.Some? && c.toKind == WaitAck && c.t1.None? && c.t2.None? && c.leaseTimer.None?
    case _ => false
  }

  predicate TimesOk(t: Times) { 0.0 <= t.renewal < t.rebinding < t.lease }

  /** What a client may count on: offers and acknowledgements carry an address, the latter also
      times in order. */
  predicate ReplyOk(m: Message) {
    m.reply && (m.kind == Offer || m.kind == Ack) ==> m.yiaddr != UNSPECIFIED && (m.kind == Ack ==> TimesOk(m.times))
  }

  /** The first timer to fire is one its state handles: T2 only while renewing, the lease timer
      never, and there is always one. No error of the client is raised. */
  lemma TimersKept(c: Client, now: real, kind: TimerKind, x: nat)
    requires TimersOk(c) && Due(c, kind) == Some(now) && NotOverdue(c, now)
    ensures var r := HandleTimer(c, now, kind, x);
      r.Sent? && TimersOk(r.client) && NotOverdue(r.client, now)
    ensures (kind == T2 ==> c.state == Renewing) && kind != LeaseTimeout
  {
    assert forall k :: Due(c, k).Some? ==> now <= Due(c, k).value;
    assert Due(c, T1) == c.t1 && Due(c, T2) == c.t2 && Due(c, LeaseTimeout) == c.leaseTimer && Due(c, To) == c.to;
  }

  lemma MessageKept(c: Client, now: real, m: Message, x: nat)
    requires TimersOk(c) && c.state != Idle && NotOverdue(c, now) && ReplyOk(m)
    ensures var r := HandleMessage(c, now, m, x);
      r.Sent? && TimersOk(r.client) && NotOverdue(r.client, now)
  {
    assert Due(c, T1) == c.t1 && Due(c, T2) == c.t2 && Due(c, LeaseTimeout) == c.leaseTimer && Due(c, To) == c.to;
  }

  /** Some timer is always scheduled. */
  lemma AlwaysATimer(c: Client)
    requires TimersOk(c)
    ensures exists kind :: Due(c, kind).Some? && kind != LeaseTimeout && (kind == T2 ==> c.state == Renewing)
  {
    assert Due(c, StartDhcp) == c.start && Due(c, To) == c.to && Due(c, T1) == c.t1;
  }
}
