/** From every state that runs of the network reach, a client that lacks an address can get one: the
    messages that make it so are there or can be sent. */
module DhcpProgress {
  import opened Basics
  import opened DhcpAnswers
  import opened DhcpNetwork
  import opened DhcpProtocol

  /** A stretch of a run. */
  ghost predicate Path(states: seq<System>, events: seq<Event>) {
    |states| == |events| + 1 && forall i :: 0 <= i < |events| ==> Next(states[i], events[i], states[i + 1])
  }

  lemma PathTwo(s: System, e: Event, t: System, f: Event, u: System)
    requires Next(s, e, t) && Next(t, f, u)
    ensures Path([s, t, u], [e, f])
  {
    hide Next;
    var ss, es := [s, t, u], [e, f];
    assert Next(ss[0], es[0], ss[1]) && Next(ss[1], es[1], ss[2]);
    forall i | 0 <= i < |es| ensures Next(ss[i], es[i], ss[i + 1]) {
      if i > 0 { assert i == 1; }
    }
  }

  lemma PathsJoin(ss: seq<System>, es: seq<Event>, ts: seq<System>, fs: seq<Event>)
    requires Path(ss, es) && Path(ts, fs) && ss[|ss| - 1] == ts[0]
    ensures Path(ss + ts[1..], es + fs)
    ensures (ss + ts[1..])[0] == ss[0] && (ss + ts[1..])[|ss| + |ts| - 2] == ts[|ts| - 1]
  {
    hide Next;
    var us, gs := ss + ts[1..], es + fs;
    assert us[|ss| + |ts| - 2] == if |ts| == 1 then ss[|ss| - 1] else ts[|ts| - 1];
    forall i | 0 <= i < |gs| ensures Next(us[i], gs[i], us[i + 1]) {
      if i < |es| {
        assert us[i] == ss[i] && us[i + 1] == ss[i + 1] && gs[i] == es[i] && Next(ss[i], es[i], ss[i + 1]);
      } else {
        var j := i - |es|;
        assert us[i + 1] == ts[j + 1] && us[i] == ts[j] && gs[i] == fs[j] && Next(ts[j], fs[j], ts[j + 1]);
      }
    }
  }

  // ---------- fresh transaction ids ----------

  lemma {:induction false} Above(ids: set<nat>) returns (x: nat)
    ensures forall y :: y in ids ==> y < x
    decreases |ids|
  {
    if ids == {} {
      x := 0;
    } else {
      var y :| y in ids;
      var z := Above(ids - {y});
      x := if y < z then z else y + 1;
      forall w | w in ids ensures w < x { assert w == y || w in ids - {y}; }
    }
  }

  lemma FreshId(s: System) returns (x: nat)
    ensures Fresh(s, x)
  {
    var ids := (set m | m in s.net :: m.xid) + (set mac | mac in s.clients :: s.clients[mac].xid);
    x := Above(ids);
    forall m | m in s.net ensures m.xid != x { assert m.xid in ids; }
    forall mac | mac in s.clients ensures s.clients[mac].xid != x { assert s.clients[mac].xid in ids; }
  }

  lemma NowIsInTime(s: System)
    requires Inv(s)
    ensures InTime(s, s.now)
  {
  }

  // ---------- one message to the server and its answer back ----------

  lemma ServerAnswers(s: System, m: Message) returns (t: System, server: Server, r: Option<Message>)
    requires Inv(s) && m in s.net
    ensures ServerStep(s.server, m, server, r) && t == s.(server := server, net := Sending(s.net, r))
    ensures Next(s, ServerGets(m), t) && Inv(t)
  {
    var found := if ip :| ip in s.server.leased && s.server.leased[ip].mac == m.chaddr then Some(ip) else None;
    assert ByMac(s.server.leased, m.chaddr, found);
    var h := Handle(s.server, m, found);
    server, r := h.0, h.1;
    hide Handle, ByMac;
    assert ServerStep(s.server, m, server, r);
    t := s.(server := server, net := Sending(s.net, r));
    assert Next(s, ServerGets(m), t);
    hide ServerStep, Inv;
    NextKeeps(s, ServerGets(m), t);
  }

  /** The client receives m now. */
  lemma ClientReceives(s: System, mac: nat, m: Message) returns (t: System, x: nat)
    requires Inv(s) && mac in s.clients && s.clients[mac].state != Idle && m in s.net
    ensures Fresh(s, x) && Next(s, ClientGets(mac, m, x, s.now), t) && Inv(t)
    ensures var r := HandleMessage(s.clients[mac], s.now, m, x);
      r.Sent? && t == s.(clients := s.clients[mac := r.client], net := Sending(s.net, r.message))
  {
    x := FreshId(s);
    NowIsInTime(s);
    var e := ClientGets(mac, m, x, s.now);
    NoErrors(s, e);
    hide HandleMessage, Inv, Fresh, InTime;
    var r := HandleMessage(s.clients[mac], s.now, m, x);
    t := s.(clients := s.clients[mac := r.client], net := Sending(s.net, r.message), now := s.now);
    NextKeeps(s, e, t);
  }

  // ---------- the exchanges ----------

  /** The client is bound to the address on record for it. */
  predicate BoundToRecord(s: System, mac: nat, ip: nat) {
    mac in s.clients && s.clients[mac].state == Bound && s.clients[mac].address == Some(ip) &&
    Recorded(s.server, ip, mac)
  }

  /** A request, once delivered, is acknowledged; the acknowledgement, once delivered, binds the client. */
  lemma RequestIsGranted(s: System, mac: nat) returns (states: seq<System>, events: seq<Event>)
    requires Inv(s) && mac in s.clients && s.clients[mac].lease.Some?
    requires var c := s.clients[mac]; c.state == Requesting || c.state == Renewing || c.state == Rebinding
    ensures Path(states, events) && states[0] == s
    ensures var t := states[|states| - 1];
      BoundToRecord(t, mac, s.clients[mac].lease.value.ip) && t.now == s.now
  {
    var c := s.clients[mac];
    var ip := c.lease.value.ip;
    var m :| m in s.net && Asks(c, m);
    assert ClientOk(s.server, c, mac) && Recorded(s.server, ip, mac);
    var t, server, r := ServerAnswers(s, m);
    RequestAnswered(s, c, m, server, r);
    var u, x := ClientReceives(t, mac, r.value);
    assert t.clients[mac] == c;
    AckBinds(c, s.now, r.value, x);
    assert u.clients[mac].state == Bound && u.clients[mac].address == Some(ip) && Recorded(server, ip, mac);
    hide Next, Inv;
    PathTwo(s, ServerGets(m), t, ClientGets(mac, r.value, x, s.now), u);
    states, events := [s, t, u], [ServerGets(m), ClientGets(mac, r.value, x, s.now)];
  }

  lemma RequestAnswered(s: System, c: Client, m: Message, server: Server, r: Option<Message>)
    requires Inv(s) && c.mac in s.clients && s.clients[c.mac] == c && c.lease.Some? && Asks(c, m)
    requires c.state == Requesting || c.state == Renewing || c.state == Rebinding
    requires ServerStep(s.server, m, server, r)
    ensures Answers(s.server, m, r, Ack, c.lease.value.ip) && Matching(c, r.value) && r.value.yiaddr != UNSPECIFIED
    ensures Recorded(server, c.lease.value.ip, c.mac)
  {
    assert ClientOk(s.server, c, c.mac);
    if c.state == Requesting {
      OfferIsHonoured(s.server, m, server, r);
    } else {
      RenewalIsGranted(s.server, m, server, r);
    }
  }

  /** There is an address for the client: one on record for it or, if it has none, a free one. */
  predicate AddressFor(s: Server, mac: nat) {
    exists ip :: s.config.begin <= ip < s.config.begin + s.config.maxClients &&
      (Recorded(s, ip, mac) || ip !in s.leased)
  }

  lemma DiscoverAnswered(s: System, m: Message, server: Server, r: Option<Message>)
    requires Inv(s) && !m.reply && m.kind == Discover && m.requested == UNSPECIFIED
    requires AddressFor(s.server, m.chaddr) && ServerStep(s.server, m, server, r)
    ensures r.Some? && Answers(s.server, m, r, Offer, r.value.yiaddr) && r.value.yiaddr != UNSPECIFIED
    ensures Recorded(server, r.value.yiaddr, m.chaddr)
  {
    if ip :| Recorded(s.server, ip, m.chaddr) {
      KnownIsOfferedItsOwn(s.server, m, server, r, ip);
    } else {
      forall p | p in s.server.leased ensures s.server.leased[p].mac != m.chaddr {
        assert !Recorded(s.server, p, m.chaddr);
      }
      RefusedOnlyWhenFull(s.server, m, server, r);
      AnswerToNew(s, m, server, r);
    }
  }

  lemma AnswerToNew(s: System, m: Message, server: Server, r: Option<Message>)
    requires Inv(s) && !m.reply && m.kind == Discover && m.requested == UNSPECIFIED && r.Some?
    requires ServerStep(s.server, m, server, r) &&
             forall ip :: ip in s.server.leased ==> s.server.leased[ip].mac != m.chaddr
    ensures Answers(s.server, m, r, Offer, r.value.yiaddr) && r.value.yiaddr != UNSPECIFIED
  {
    FirstFreeIsFirst(s.server, 0);
  }

  /** A discovery, once delivered, is answered by an offer; that, once delivered, is requested. */
  lemma OfferIsMade(s: System, mac: nat) returns (states: seq<System>, events: seq<Event>)
    requires Inv(s) && mac in s.clients && s.clients[mac].state == Selecting && AddressFor(s.server, mac)
    ensures Path(states, events) && states[0] == s
    ensures var t := states[|states| - 1];
      Inv(t) && t.now == s.now && mac in t.clients && t.clients[mac].state == Requesting &&
      t.clients[mac].lease.Some? && Recorded(t.server, t.clients[mac].lease.value.ip, mac)
  {
    var c := s.clients[mac];
    assert ClientOk(s.server, c, mac) && Asked(s.net, c);
    var m :| m in s.net && Asks(c, m);
    var t, server, r := ServerAnswers(s, m);
    DiscoverAnswered(s, m, server, r);
    var u, x := ClientReceives(t, mac, r.value);
    assert t.clients[mac] == c;
    OfferIsAccepted(c, s.now, r.value, x);
    hide Next, Inv;
    PathTwo(s, ServerGets(m), t, ClientGets(mac, r.value, x, s.now), u);
    states, events := [s, t, u], [ServerGets(m), ClientGets(mac, r.value, x, s.now)];
  }

  /** A client's start timer fires. */
  lemma Starts(s: System, mac: nat) returns (t: System, x: nat)
    requires Inv(s) && mac in s.clients && s.clients[mac].start.Some? && InTime(s, s.clients[mac].start.value)
    ensures Next(s, TimerFires(mac, StartDhcp, x), t) && Inv(t) && t.server == s.server
    ensures t.now == s.clients[mac].start.value && mac in t.clients && t.clients[mac].state == Selecting
  {
    x := FreshId(s);
    var c := s.clients[mac];
    var e := TimerFires(mac, StartDhcp, x);
    assert ClientOk(s.server, c, mac);
    NoErrors(s, e);
    StartDiscovers(c, c.start.value, StartDhcp, x);
    hide HandleTimer, Inv, Fresh, InTime;
    var r := HandleTimer(c, c.start.value, StartDhcp, x);
    t := s.(clients := s.clients[mac := r.client], net := Sending(s.net, r.message), now := c.start.value);
    NextKeeps(s, e, t);
  }

  /** From where the client waits for an offer. */
  lemma OfferedThenGranted(s: System, mac: nat) returns (states: seq<System>, events: seq<Event>, ip: nat)
    requires Inv(s) && mac in s.clients && s.clients[mac].state == Selecting && AddressFor(s.server, mac)
    ensures Path(states, events) && states[0] == s
    ensures BoundToRecord(states[|states| - 1], mac, ip) && states[|states| - 1].now == s.now
  {
    var ss, es := OfferIsMade(s, mac);
    var t := ss[|ss| - 1];
    ip := t.clients[mac].lease.value.ip;
    var ts, fs := RequestIsGranted(t, mac);
    hide Next, Inv;
    PathsJoin(ss, es, ts, fs);
    states, events := ss + ts[1..], es + fs;
  }

  /** What a client still needs: the first timer to be its own start, if it has not started, and an
      address, if it has not been offered one. */
  predicate CanBeServed(s: System, mac: nat) {
    mac in s.clients &&
    var c := s.clients[mac];
    (c.state == Idle && c.start.Some? ==> InTime(s, c.start.value)) &&
    (c.state == Idle || c.state == Selecting ==> AddressFor(s.server, mac))
  }

  /** From every state of every run, however many messages were lost, duplicated or misdelivered, the run
      can go on so that the client is bound to the address recorded for it. */
  lemma ServiceIsPossible(run: seq<System>, past: seq<Event>, i: nat, mac: nat)
    returns (states: seq<System>, events: seq<Event>, ip: nat)
    requires Run(run, past) && i < |run| && CanBeServed(run[i], mac)
    ensures Path(states, events) && states[0] == run[i] && BoundToRecord(states[|states| - 1], mac, ip)
    ensures run[i].clients[mac].state != Idle ==> states[|states| - 1].now == run[i].now
  {
    var s := run[i];
    var c := s.clients[mac];
    RunKeeps(run, past, i);
    assert ClientOk(s.server, c, mac);
    if c.state == Idle {
      var t, x := Starts(s, mac);
      var ts, fs;
      ts, fs, ip := OfferedThenGranted(t, mac);
      hide Next, Inv;
      assert Path([s, t], [TimerFires(mac, StartDhcp, x)]);
      PathsJoin([s, t], [TimerFires(mac, StartDhcp, x)], ts, fs);
      states, events := [s, t] + ts[1..], [TimerFires(mac, StartDhcp, x)] + fs;
    } else if c.state == Selecting {
      states, events, ip := OfferedThenGranted(s, mac);
    } else if c.state == Bound {
      states, events, ip := [s], [], c.lease.value.ip;
    } else {
      ip := c.lease.value.ip;
      states, events := RequestIsGranted(s, mac);
    }
  }
}
