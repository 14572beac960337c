/** What server and client answer, message by message, in the terms of RFC 2131: sections 4.3.1 and
    4.3.2 for the server, 4.4.1 and 4.4.5 for the client. */
module DhcpAnswers {
  import opened Basics
  import opened DhcpProtocol

  // ---------- the server ----------

  /** The lease times of every offer and acknowledgement: renewal at half, rebinding at seven eighths. */
  predicate Timed(s: Server, m: Message) {
    m.times.lease == s.config.leaseTime && 2.0 * m.times.renewal == s.config.leaseTime &&
    8.0 * m.times.rebinding == 7.0 * s.config.leaseTime
  }

  /** r answers m with the given kind and address. */
  predicate Answers(s: Server, m: Message, r: Option<Message>, kind: Kind, ip: nat) {
    r.Some? && r.value.reply && r.value.kind == kind && r.value.yiaddr == ip &&
    r.value.xid == m.xid && r.value.chaddr == m.chaddr && r.value.serverId == s.config.ip
  }

  /** The table is the same but for the transaction id last seen at ip. */
  ghost predicate OnlyXid(s: Server, s': Server, ip: nat, xid: nat) {
    ip in s.leased && s' == s.(leased := s.leased[ip := s.leased[ip].(xid := xid)])
  }

  /** A client that has a record is offered its own address again. */
  lemma KnownIsOfferedItsOwn(s: Server, m: Message, s': Server, r: Option<Message>, ip: nat)
    requires TableOk(s) && Recorded(s, ip, m.chaddr) && !m.reply && m.kind == Discover && ServerStep(s, m, s', r)
    ensures Answers(s, m, r, Offer, ip) && Timed(s, r.value) && OnlyXid(s, s', ip, m.xid)
  {
  }

  /** A new client is offered the first address of the pool that has no record, and gets a record. */
  lemma NewIsOfferedTheFirstFree(s: Server, m: Message, s': Server, r: Option<Message>, ip: nat)
    requires TableOk(s) && !m.reply && m.kind == Discover && m.requested == UNSPECIFIED && ServerStep(s, m, s', r)
    requires forall p :: p in s.leased ==> s.leased[p].mac != m.chaddr
    requires s.config.begin <= ip < s.config.begin + s.config.maxClients && ip !in s.leased
    requires forall p :: s.config.begin <= p < ip ==> p in s.leased
    ensures Answers(s, m, r, Offer, ip) && Timed(s, r.value)
    ensures s' == s.(leased := s.leased[ip := Lease(ip, m.chaddr, m.xid, true)])
  {
    FirstFreeIsFirst(s, 0);
    FirstFreeBefore(s, 0, ip - s.config.begin);
  }

  /** A new client that asks for an address is offered that one. */
  lemma NewIsOfferedWhatItAsksFor(s: Server, m: Message, s': Server, r: Option<Message>)
    requires TableOk(s) && !m.reply && m.kind == Discover && m.requested != UNSPECIFIED && ServerStep(s, m, s', r)
    requires forall p :: p in s.leased ==> s.leased[p].mac != m.chaddr
    ensures Answers(s, m, r, Offer, m.requested) && Timed(s, r.value)
    ensures s' == s.(leased := s.leased[m.requested := Lease(m.requested, m.chaddr, m.xid, true)])
  {
  }

  lemma {:induction false} FirstFreeBefore(s: Server, i: nat, n: nat)
    requires i <= n < s.config.maxClients && s.config.begin + n !in s.leased
    requires forall p :: s.config.begin + i <= p < s.config.begin + n ==> p in s.leased && s.leased[p].leased
    ensures FirstFree(s, i) == Some(s.config.begin + n)
    decreases n - i
  {
    if i < n { FirstFreeBefore(s, i + 1, n); }
  }

  /** A client that requests the address it was offered gets it. */
  lemma OfferIsHonoured(s: Server, m: Message, s': Server, r: Option<Message>)
    requires TableOk(s) && !m.reply && m.kind == Request && m.serverId == s.config.ip && ServerStep(s, m, s', r)
    requires Recorded(s, m.requested, m.chaddr)
    ensures Answers(s, m, r, Ack, m.requested) && Timed(s, r.value) && OnlyXid(s, s', m.requested, m.xid)
  {
  }

  /** A client that requests another address of this server than its own is refused. */
  lemma OtherIsRefused(s: Server, m: Message, s': Server, r: Option<Message>)
    requires TableOk(s) && !m.reply && m.kind == Request && m.serverId == s.config.ip && ServerStep(s, m, s', r)
    requires !Recorded(s, m.requested, m.chaddr)
    ensures Answers(s, m, r, Nak, UNSPECIFIED) && s' == s
  {
  }

  /** Renewing or rebinding an address on record is granted, and refused without a record. */
  lemma RenewalIsGranted(s: Server, m: Message, s': Server, r: Option<Message>)
    requires TableOk(s) && !m.reply && m.kind == Request && m.serverId != s.config.ip && ServerStep(s, m, s', r)
    requires m.ciaddr != UNSPECIFIED
    ensures Recorded(s, m.ciaddr, m.chaddr) ==>
        Answers(s, m, r, Ack, m.ciaddr) && Timed(s, r.value) && OnlyXid(s, s', m.ciaddr, m.xid)
    ensures m.ciaddr !in s.leased ==> Answers(s, m, r, Nak, UNSPECIFIED) && s' == s
  {
  }

  /** A client that starts again and asks for the address on record for it gets it; about an address it
      has no record of the server keeps silent. */
  lemma RebootIsGranted(s: Server, m: Message, s': Server, r: Option<Message>)
    requires TableOk(s) && !m.reply && m.kind == Request && m.serverId != s.config.ip && ServerStep(s, m, s', r)
    requires m.ciaddr == UNSPECIFIED
    ensures Recorded(s, m.requested, m.chaddr) ==>
        Answers(s, m, r, Ack, m.requested) && Timed(s, r.value) && OnlyXid(s, s', m.requested, m.xid)
    ensures m.requested !in s.leased ==> r == None && s' == s
  {
  }

  /** Nothing else is answered. */
  lemma OthersAreIgnored(s: Server, m: Message, s': Server, r: Option<Message>)
    requires m.reply || (m.kind != Discover && m.kind != Request)
    requires ServerStep(s, m, s', r)
    ensures r == None && s' == s
  {
  }

  // ---------- the client ----------

  /** A message is for the client if it is a reply with its current transaction id. */
  predicate Matching(c: Client, m: Message) { m.reply && m.xid == c.xid }

  /** What c broadcasts to find a server. */
  predicate IsDiscover(c: Client, m: Message) {
    !m.reply && m.kind == Discover && m.xid == c.xid && m.chaddr == c.mac && m.requested == UNSPECIFIED
  }

  /** What c sends to accept an offer: the address offered, and the server that offered it. */
  predicate IsAcceptance(c: Client, m: Message) {
    c.lease.Some? && !m.reply && m.kind == Request && m.xid == c.xid && m.chaddr == c.mac &&
    m.ciaddr == UNSPECIFIED && m.requested == c.lease.value.ip && m.serverId == c.lease.value.serverId
  }

  /** What c sends to keep its address: that address, and no server. */
  predicate IsRenewal(c: Client, m: Message) {
    c.lease.Some? && !m.reply && m.kind == Request && m.xid == c.xid && m.chaddr == c.mac &&
    m.ciaddr == c.lease.value.ip && m.serverId == UNSPECIFIED
  }

  /** r takes the client to the given state with the given message sent, under the id x. */
  predicate Reacts(r: Reaction, state: State, x: nat) {
    r.Sent? && r.client.state == state && r.client.xid == x && r.message.Some?
  }

  /** An offer is accepted while one is waited for. */
  lemma OfferIsAccepted(c: Client, now: real, m: Message, x: nat)
    requires c.state == Selecting && Matching(c, m) && m.kind == Offer && m.yiaddr != UNSPECIFIED
    ensures var r := HandleMessage(c, now, m, x);
      Reacts(r, Requesting, x) && IsAcceptance(r.client, r.message.value) && r.client.address == c.address &&
      r.client.lease.value.ip == m.yiaddr && r.client.lease.value.serverId == m.serverId &&
      r.client.to == Some(now + 60.0) && r.client.toKind == WaitAck
  {
  }

  /** An acknowledgement binds the client to its address, with the timers that it names. */
  lemma AckBinds(c: Client, now: real, m: Message, x: nat)
    requires c.state == Requesting || c.state == Rebooting || c.state == Renewing || c.state == Rebinding
    requires c.lease.Some? && Matching(c, m) && m.kind == Ack && m.yiaddr != UNSPECIFIED
    ensures var r := HandleMessage(c, now, m, x);
      r.Sent? && r.message == None && r.client.state == Bound && r.client.xid == c.xid &&
      r.client.address == Some(c.lease.value.ip) && r.client.lease == Some(c.lease.value.(times := m.times)) &&
      r.client.t1 == Some(now + m.times.renewal) && r.client.t2 == Some(now + m.times.rebinding) &&
      r.client.leaseTimer == Some(now + m.times.lease) && r.client.to == None
  {
  }

  /** A refusal makes the client begin again, and give up its address if it had one in use. */
  lemma NakRestarts(c: Client, now: real, m: Message, x: nat)
    requires c.state == Requesting || c.state == Rebooting || c.state == Renewing || c.state == Rebinding
    requires Matching(c, m) && m.kind == Nak
    ensures var r := HandleMessage(c, now, m, x);
      Reacts(r, Selecting, x) && IsDiscover(r.client, r.message.value) &&
      r.client.to == Some(now + 60.0) && r.client.toKind == WaitOffer &&
      r.client.address == if c.state == Requesting then c.address else None
  {
  }

  /** Everything else is ignored: what does not match, and what the state does not wait for. */
  lemma OthersChangeNothing(c: Client, now: real, m: Message, x: nat)
    requires !Matching(c, m) || c.state == Init || c.state == Bound || (c.state == Selecting && m.kind != Offer) ||
             (c.state != Selecting && c.state != Idle && c.state != InitReboot && m.kind != Ack && m.kind != Nak)
    ensures HandleMessage(c, now, m, x) == Sent(c, None)
  {
  }

  /** A client that starts, or waits in vain for an answer, looks for a server. */
  lemma StartDiscovers(c: Client, now: real, kind: TimerKind, x: nat)
    requires kind == To || (kind == StartDhcp && c.lease.None?)
    ensures var r := HandleTimer(c, now, kind, x);
      Reacts(r, Selecting, x) && IsDiscover(r.client, r.message.value) && r.client.address == c.address &&
      r.client.to == Some(now + 60.0) && r.client.toKind == WaitOffer && r.client.t1 == r.client.t2 == None
  {
  }

  /** One that starts with a lease asks for its address again, of any server. */
  lemma StartReboots(c: Client, now: real, x: nat)
    requires c.lease.Some?
    ensures var r := HandleTimer(c, now, StartDhcp, x);
      Reacts(r, Rebooting, x) && r.client.lease == c.lease && r.client.to == Some(now + 60.0) &&
      r.client.toKind == WaitAck && r.message.value.kind == Request && !r.message.value.reply &&
      r.message.value.xid == x && r.message.value.chaddr == c.mac && r.message.value.requested == c.lease.value.ip &&
      r.message.value.ciaddr == r.message.value.serverId == UNSPECIFIED
  {
  }

  /** Half-way through the lease the client asks to renew it, and keeps the timers for the end. */
  lemma RenewalAsks(c: Client, now: real, x: nat)
    requires c.lease.Some?
    ensures var r := HandleTimer(c, now, T1, x);
      Reacts(r, Renewing, x) && IsRenewal(r.client, r.message.value) && r.client.address == c.address &&
      r.client.lease == c.lease && r.client.t1 == None && r.client.t2 == c.t2 &&
      r.client.leaseTimer == c.leaseTimer && r.client.to == Some(now + 60.0)
  {
  }

  /** Later it asks any server. */
  lemma RebindingAsks(c: Client, now: real, x: nat)
    requires c.lease.Some? && c.state == Renewing
    ensures var r := HandleTimer(c, now, T2, x);
      Reacts(r, Rebinding, x) && IsRenewal(r.client, r.message.value) && r.client.address == c.address &&
      r.client.lease == c.lease && r.client.to == Some(now + 60.0)
  {
  }

  /** At the end of the lease the address is given up. */
  lemma LeaseEnds(c: Client, now: real, x: nat)
    ensures var r := HandleTimer(c, now, LeaseTimeout, x);
      Reacts(r, Selecting, x) && IsDiscover(r.client, r.message.value) && r.client.address == None
  {
  }
}
