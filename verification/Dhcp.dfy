/** The DHCP server and client modules: their handlers do what the protocol functions say. */
module Dhcp {
  import opened Basics
  import opened DhcpProtocol

  class DHCPServer {
    const config: Config
    var leased: map<nat, Lease>
    var numReceived: nat

    ghost function Abs(): Server
      reads this`leased
    {
      Server(config, leased)
    }

    constructor (config: Config)
      ensures Abs() == Server(config, map[]) && numReceived == 0
    {
      this.config, leased, numReceived := config, map[], 0;
    }

    /** Look through the leases for one of the MAC's. */
    method GetLeaseByMac(mac: nat) returns (found: Option<nat>)
      ensures ByMac(leased, mac, found)
    {
      var keys := leased.Keys;
      while keys != {}
        invariant keys <= leased.Keys && forall ip :: ip in leased && ip !in keys ==> leased[ip].mac != mac
        decreases |keys|
      {
        var ip :| ip in keys;
        if leased[ip].mac == mac {
          return Some(ip);
        }
        keys := keys - {ip};
      }
      return None;
    }

    /** An address that can be leased; its entry is created if it is not there. */
    method GetAvailableLease(requested: nat) returns (r: Option<nat>)
      modifies this`leased
      ensures r == Available(old(Abs()), requested)
      ensures match r
              case None => leased == old(leased)
              case Some(ip) =>
                leased == old(leased)[ip := if ip in old(leased) && !old(leased)[ip].leased then old(leased)[ip]
                                            else Lease(ip, 0, 0, false)]
    {
      if requested != UNSPECIFIED {
        if requested in leased && !leased[requested].leased {
          assert leased == leased[requested := leased[requested]];
          return Some(requested);
        }
        leased := leased[requested := Lease(requested, 0, 0, false)];
        return Some(requested);
      }
      var i := 0;
      while i < config.maxClients
        invariant i <= config.maxClients && FirstFree(Abs(), i) == FirstFree(Abs(), 0) && leased == old(leased)
      {
        var ip := config.begin + i;
        if ip in leased {
          if !leased[ip].leased {
            assert leased == leased[ip := leased[ip]];
            return Some(ip);
          }
        } else {
          leased := leased[ip := Lease(ip, 0, 0, false)];
          return Some(ip);
        }
        i := i + 1;
      }
      return None;
    }

    /** Record the request in the lease filed under ip and acknowledge it. */
    method SendAck(ip: nat, m: Message) returns (reply: Option<Message>)
      requires ip in leased
      modifies this`leased
      ensures (Abs(), reply) == Acknowledge(old(Abs()), m, ip)
    {
      var l := leased[ip].(xid := m.xid, leased := true);
      leased := leased[ip := l];
      reply := Some(AckOf(Server(config, map[]), l));
    }

    method ProcessDiscover(m: Message) returns (reply: Option<Message>)
      modifies this`leased
      ensures exists found ::
          ByMac(old(leased), m.chaddr, found) && (Abs(), reply) == HandleDiscover(old(Abs()), m, found)
    {
      var found := GetLeaseByMac(m.chaddr);
      var l;
      if found == None {
        var free := GetAvailableLease(m.requested);
        if free == None {
          return None;
        }
        l := leased[free.value].(mac := m.chaddr, xid := m.xid, leased := true);
        leased := leased[free.value := l];
        assert leased == old(leased)[free.value := l];
      } else {
        l := leased[found.value].(xid := m.xid);
        leased := leased[found.value := l];
      }
      reply := Some(OfferOf(Server(config, map[]), l));
      assert (Abs(), reply) == HandleDiscover(old(Abs()), m, found);
    }

    method ProcessRequest(m: Message) returns (reply: Option<Message>)
      modifies this`leased
      ensures exists found ::
          ByMac(old(leased), m.chaddr, found) && (Abs(), reply) == HandleRequest(old(Abs()), m, found)
    {
      var found := GetLeaseByMac(m.chaddr);
      reply := Some(NakOf(Server(config, map[]), m));
      if m.serverId == config.ip {
        if found.Some? && leased[found.value].ip == m.requested {
          reply := SendAck(found.value, m);
        }
      } else if m.ciaddr == UNSPECIFIED {
        if m.requested !in leased {
          reply := None;
        } else if config.network(m.requested) == config.network(leased[m.requested].ip) {
          reply := SendAck(m.requested, m);
        }
      } else if m.ciaddr in leased {
        reply := SendAck(m.ciaddr, m);
      }
      assert (Abs(), reply) == HandleRequest(old(Abs()), m, found);
    }

    /** A message arrives on the interface served. */
    method ProcessDHCPMessage(m: Message) returns (reply: Option<Message>)
      modifies this`leased, this`numReceived
      ensures ServerStep(old(Abs()), m, Abs(), reply) && numReceived == old(numReceived) + 1
    {
      ghost var s := Abs();
      ghost var found;
      reply := None;
      if !m.reply && m.kind == Discover {
        reply := ProcessDiscover(m);
        found :| ByMac(s.leased, m.chaddr, found) && (Abs(), reply) == HandleDiscover(s, m, found);
      } else if !m.reply && m.kind == Request {
        reply := ProcessRequest(m);
        found :| ByMac(s.leased, m.chaddr, found) && (Abs(), reply) == HandleRequest(s, m, found);
      } else {
        found := GetLeaseByMac(m.chaddr);
      }
      assert (Abs(), reply) == Handle(s, m, found);
      numReceived := numReceived + 1;
    }
  }

  class DHCPClient {
    const macAddress: nat
    var clientState: State
    var xid: nat
    var lease: Option<ClientLease>
    var address: Option<nat>
    var startTimer: Option<real>
    var timerTo: Option<real>
    var timerToKind: Timeout
    var timerT1: Option<real>
    var timerT2: Option<real>
    var leaseTimer: Option<real>

    ghost function Abs(): Client
      reads this
    {
      Client(macAddress, clientState, xid, lease, address, startTimer, timerTo, timerToKind, timerT1, timerT2,
             leaseTimer)
    }

    /** The client waits for its start time. */
    constructor (mac: nat, start: real)
      ensures Abs() == Client(mac, Idle, 0, None, None, Some(start), None, WaitOffer, None, None, None)
    {
      macAddress, clientState, xid, lease, address := mac, Idle, 0, None, None;
      startTimer, timerTo, timerToKind, timerT1, timerT2, leaseTimer := Some(start), None, WaitOffer, None, None, None;
    }

    method CancelTimers()
      modifies this
      ensures Abs() == CancelAll(old(Abs()))
    {
      timerT1, timerT2, timerTo, leaseTimer := None, None, None, None;
    }

    method ScheduleTimerTO(kind: Timeout, now: real)
      modifies this
      ensures Abs() == ScheduleTo(old(Abs()), now, kind)
    {
      timerToKind, timerTo := kind, Some(now + RESPONSE_TIMEOUT);
    }

    /** Send the request of the current state; not in all states there is one. */
    method SendRequestMessage(x: nat) returns (ok: bool, sent: Option<Message>)
      modifies this
      ensures match SendRequest(old(Abs()), x)
              case Sent(c, m) => ok && Abs() == c && sent == m
              case _ => !ok
    {
      ok, sent := true, None;
      xid := x;
      var request := Message(false, Request, x, macAddress, 0, 0, 0, 0, NO_TIMES);
      if clientState !in {InitReboot, Requesting, Renewing, Rebinding} || lease == None {
        ok := false;
      } else if clientState == InitReboot {
        sent := Some(request.(requested := lease.value.ip));
      } else if clientState == Requesting {
        sent := Some(request.(requested := lease.value.ip, serverId := lease.value.serverId));
      } else {
        sent := Some(request.(ciaddr := lease.value.ip));
      }
    }

    method Initialise(now: real, x: nat) returns (sent: Option<Message>)
      modifies this
      ensures Sent(Abs(), sent) == InitClient(old(Abs()), now, x)
    {
      CancelTimers();
      xid := x;
      sent := Some(Message(false, Discover, x, macAddress, 0, 0, 0, 0, NO_TIMES));
      ScheduleTimerTO(WaitOffer, now);
      clientState := Selecting;
    }

    method Unbind()
      modifies this
      ensures Abs() == UnbindLease(old(Abs()))
    {
      CancelTimers();
      address := None;
    }

    /** A timer fires. */
    method Timer(now: real, kind: TimerKind, x: nat) returns (ok: bool, sent: Option<Message>)
      modifies this
      ensures match HandleTimer(old(Abs()), now, kind, x)
              case Sent(c, m) => ok && Abs() == c && sent == m
              case _ => !ok
    {
      ok, sent := true, None;
      match kind {
        case StartDhcp =>
          startTimer := None;
          if lease != None {
            clientState := InitReboot;
            ok, sent := SendRequestMessage(x);
            ScheduleTimerTO(WaitAck, now);
            clientState := Rebooting;
          } else {
            clientState := Init;
            sent := Initialise(now, x);
          }
        case To =>
          timerTo := None;
          sent := Initialise(now, x);
        case T1 =>
          timerT1, clientState := None, Renewing;
          ScheduleTimerTO(WaitAck, now);
          ok, sent := SendRequestMessage(x);
        case T2 =>
          if clientState == Renewing {
            clientState := Rebinding;
            CancelTimers();
            ok, sent := SendRequestMessage(x);
            ScheduleTimerTO(WaitAck, now);
          } else {
            ok := false;
          }
        case LeaseTimeout =>
          leaseTimer := None;
          Unbind();
          clientState := Init;
          sent := Initialise(now, x);
      }
    }

    /** An acknowledgement is accepted. */
    method AcceptAck(now: real, m: Message) returns (ok: bool)
      modifies this
      ensures match HandleAck(old(Abs()), now, m)
              case Sent(c, _) => ok && Abs() == c
              case _ => !ok
    {
      ok := lease != None;
      if ok {
        if m.yiaddr != UNSPECIFIED {
          lease := Some(lease.value.(times := m.times));
        }
        timerTo := None;
        timerT1 := Some(now + lease.value.times.renewal);
        timerT2 := Some(now + lease.value.times.rebinding);
        address := Some(lease.value.ip);
        leaseTimer := Some(now + lease.value.times.lease);
        clientState := Bound;
      }
    }

    /** A message arrives. */
    method Receive(now: real, m: Message, x: nat) returns (ok: bool, sent: Option<Message>)
      modifies this
      ensures match HandleMessage(old(Abs()), now, m, x)
              case Sent(c, r) => ok && Abs() == c && sent == r
              case _ => !ok
    {
      ok, sent := true, None;
      if !m.reply || m.xid != xid {
        return;
      }
      match clientState {
        case Idle => ok := false;
        case InitReboot => ok := false;
        case Init =>
        case Bound =>
        case Selecting =>
          if m.kind == Offer {
            ScheduleTimerTO(WaitAck, now);
            clientState := Requesting;
            if m.yiaddr != UNSPECIFIED {
              lease := Some(ClientLease(m.yiaddr, m.serverId, NO_TIMES));
            }
            ok, sent := SendRequestMessage(x);
          }
        case Requesting =>
          if m.kind == Ack {
            ok := AcceptAck(now, m);
          } else if m.kind == Nak {
            sent := Initialise(now, x);
          }
        case _ =>
          if m.kind == Ack {
            ok := AcceptAck(now, m);
          } else if m.kind == Nak {
            Unbind();
            sent := Initialise(now, x);
          }
      }
    }
  }
}
