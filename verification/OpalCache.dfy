/** OpalLoRaRadioMedium: in static scenes the powers a ray tracing reported are cached and replayed. */
module OpalCache {
  import opened Basics

  /** What a receiver's callback object holds: the mailbox of the tracer's last report and the
      transmission on the air. */
  datatype Callback = Callback(hasReceivedPower: bool, lastPower: real, lastTransmitterId: int,
        transmission: Option<nat>)

  /** `reset`. */
  function Emptied(c: Callback): Callback { Callback(false, 0.0, -1, c.transmission) }

  predicate Empty(c: Callback) { c == Emptied(c) }

  class OpalLoRaRadioMedium {
    const isStatic: bool
    const radios: set<nat>
    /** The tracer's number of a radio. */
    const opalId: nat -> nat
    /** The power the tracer reports at a receiver, if any of the rays gets there. */
    const trace: (nat, nat) -> Option<real>
    /** Who sent each transmission. */
    var transmitters: seq<nat>
    var receiversRadios: map<nat, Callback>
    var mapReceptions: map<nat, map<nat, real>>
    var cachedReceptions: map<(nat, nat), real>
    /** The transmitters whose rays were traced, in order. */
    ghost var traced: seq<nat>

    /** The reception power of a receiver for a transmitter. */
    function Power(tx: nat, rx: nat): real {
      if trace(tx, rx).Some? then trace(tx, rx).value else 0.0
    }

    /** The radio set is fixed, its tracer numbers differ, and the tracer reports to other radios only. */
    ghost predicate Scene() {
      (forall a, b :: a in radios && b in radios && opalId(a) == opalId(b) ==> a == b) &&
      forall tx, rx :: trace(tx, rx).Some? ==> rx in radios && rx != tx
    }

    /** Registered radios, empty mailboxes, and right powers in both caches. */
    ghost predicate Core()
      reads this`transmitters, this`receiversRadios, this`mapReceptions, this`cachedReceptions
    {
      Scene() && receiversRadios.Keys == radios &&
      (forall t :: 0 <= t < |transmitters| ==> transmitters[t] in radios) &&
      (forall rx :: rx in radios ==> Empty(receiversRadios[rx])) &&
      (forall rx, t :: (rx, t) in cachedReceptions ==>
         t < |transmitters| && cachedReceptions[(rx, t)] == Power(transmitters[t], rx)) &&
      (forall tx, rx :: tx in mapReceptions && rx in mapReceptions[tx] ==>
         rx in radios && mapReceptions[tx][rx] == Power(tx, rx))
    }

    /** Every receiver that transmission t reaches with power has its reception. */
    ghost predicate Received(t: nat)
      requires t < |transmitters|
      reads this`transmitters, this`cachedReceptions
    {
      forall rx: nat :: Power(transmitters[t], rx) != 0.0 ==> (rx, t) in cachedReceptions
    }

    /** The cache has every receiver the transmitter reaches with power. */
    ghost predicate Complete(tx: nat)
      reads this`mapReceptions
    {
      tx in mapReceptions ==> forall rx: nat :: Power(tx, rx) != 0.0 ==> rx in mapReceptions[tx]
    }

    ghost predicate Valid()
      reads this`transmitters, this`receiversRadios, this`mapReceptions, this`cachedReceptions
    {
      Core() && (forall t :: 0 <= t < |transmitters| ==> Received(t)) &&
      forall tx :: tx in mapReceptions ==> Complete(tx)
    }

    /** In a static scene the rays of each radio that has transmitted were traced once, in others with every
        transmission. */
    ghost predicate Traced()
      reads this`transmitters, this`mapReceptions, this`traced
    {
      if isStatic then
        (forall i, j :: 0 <= i < j < |traced| ==> traced[i] != traced[j]) &&
        (forall tx :: tx in traced <==> tx in transmitters) && forall tx :: tx in traced <==> tx in mapReceptions
      else traced == transmitters
    }

    constructor (isStatic: bool, radios: set<nat>, opalId: nat -> nat, trace: (nat, nat) -> Option<real>)
      requires forall a, b :: a in radios && b in radios && opalId(a) == opalId(b) ==> a == b
      requires forall tx, rx :: trace(tx, rx).Some? ==> rx in radios && rx != tx
      ensures Valid() && Traced() && transmitters == []
      ensures this.isStatic == isStatic && this.radios == radios && this.trace == trace
    {
      this.isStatic, this.radios, this.opalId, this.trace := isStatic, radios, opalId, trace;
      transmitters, mapReceptions, cachedReceptions, traced := [], map[], map[], [];
      receiversRadios := map rx | rx in radios :: Callback(false, 0.0, -1, None);
    }

    /** `opalComputeReception`: the power is taken from the mailbox, or zero if it is empty; static
        media remember it. It is an error if the mailbox holds another transmitter's power, or one's own. */
    method OpalComputeReception(rx: nat, t: nat) returns (ok: bool, p: real)
      requires rx in receiversRadios && t < |transmitters|
      modifies this`receiversRadios, this`mapReceptions
      ensures var c, txId := old(receiversRadios[rx]), opalId(transmitters[t]);
        && ok == (c.hasReceivedPower ==> c.lastTransmitterId == txId && opalId(rx) != txId)
        && (ok ==> p == if c.hasReceivedPower then c.lastPower else 0.0)
        && (ok ==> receiversRadios == old(receiversRadios)[rx := if c.hasReceivedPower then Emptied(c) else c])
      ensures ok ==> mapReceptions == Remembering(old(mapReceptions), transmitters[t], rx, p)
    {
      var ocb := receiversRadios[rx];
      var tx := transmitters[t];
      ok, p := true, 0.0;
      if ocb.hasReceivedPower {
        if ocb.lastTransmitterId != opalId(tx) || opalId(rx) == opalId(tx) {
          ok := false;
          return;
        }
        p := ocb.lastPower;
        receiversRadios := receiversRadios[rx := Emptied(ocb)];
      }
      assert receiversRadios == receiversRadios[rx := receiversRadios[rx]];
      if isStatic && tx in mapReceptions && rx !in mapReceptions[tx] {
        var entry: map<nat, real> := mapReceptions[tx][rx := p];
        mapReceptions := mapReceptions[tx := entry];
      }
    }

    /** The cache entry is made when it is missing. */
    function Remembering(m: map<nat, map<nat, real>>, tx: nat, rx: nat, p: real): map<nat, map<nat, real>> {
      if isStatic && tx in m && rx !in m[tx] then
        var entry: map<nat, real> := m[tx][rx := p];
        m[tx := entry]
      else m
    }

    /** `getReception`: computed once for each receiver and transmission. */
    method GetReception(rx: nat, t: nat) returns (ok: bool, p: real)
      requires rx in receiversRadios && t < |transmitters|
      modifies this`receiversRadios, this`mapReceptions, this`cachedReceptions
      ensures var c, txId := old(receiversRadios[rx]), opalId(transmitters[t]);
        if (rx, t) in old(cachedReceptions) then
          ok && cachedReceptions == old(cachedReceptions) && p == cachedReceptions[(rx, t)] &&
          mapReceptions == old(mapReceptions) &&
          receiversRadios == old(receiversRadios)
        else
          && ok == (c.hasReceivedPower ==> c.lastTransmitterId == txId && opalId(rx) != txId)
          && (ok ==> p == if c.hasReceivedPower then c.lastPower else 0.0)
          && (ok ==> receiversRadios == old(receiversRadios)[rx := if c.hasReceivedPower then Emptied(c) else c])
          && (ok ==> cachedReceptions == old(cachedReceptions)[(rx, t) := p])
          && (ok ==> mapReceptions == Remembering(old(mapReceptions), transmitters[t], rx, p))
    {
      ok := true;
      if (rx, t) in cachedReceptions {
        p := cachedReceptions[(rx, t)];
      } else {
        ok, p := OpalComputeReception(rx, t);
        if ok {
          cachedReceptions := cachedReceptions[(rx, t) := p];
        }
      }
    }

    lemma RememberingKeeps(m: map<nat, map<nat, real>>, tx: nat, rx: nat)
      requires rx in radios && forall x, r :: x in m && r in m[x] ==> r in radios && m[x][r] == Power(x, r)
      ensures var m' := Remembering(m, tx, rx, Power(tx, rx));
        m'.Keys == m.Keys && (forall x, r :: x in m' && r in m'[x] ==> r in radios && m'[x][r] == Power(x, r)) &&
        (forall x, r :: x in m && r in m[x] ==> r in m'[x]) && (isStatic && tx in m ==> rx in m'[tx])
    {
    }

    /** A later query for a reception: the same power, whether the scene is static or not. */
    method QueryReception(rx: nat, t: nat) returns (ok: bool, p: real)
      requires Valid() && rx in radios && t < |transmitters|
      modifies this`receiversRadios, this`mapReceptions, this`cachedReceptions
      ensures Valid() && ok && p == Power(transmitters[t], rx) && (old(Traced()) ==> Traced())
    {
      assert Received(t);
      RememberingKeeps(mapReceptions, transmitters[t], rx);
      ok, p := GetReception(rx, t);
      assert receiversRadios == old(receiversRadios);
      forall u | 0 <= u < |transmitters| ensures Received(u) { assert old(Received(u)); }
      forall tx | tx in mapReceptions ensures Complete(tx) { assert old(Complete(tx)); }
    }

    /** A callback: the power goes into the mailbox, and the reception is made at once. */
    method CreateReception(rx: nat, p: real, id: nat, ghost t: nat) returns (ok: bool)
      requires Core() && rx in radios && t < |transmitters| && receiversRadios[rx].transmission == Some(t) &&
               (rx, t) !in cachedReceptions
      requires id == opalId(transmitters[t]) && trace(transmitters[t], rx) == Some(p)
      modifies this`receiversRadios, this`mapReceptions, this`cachedReceptions
      ensures ok && Core() && receiversRadios == old(receiversRadios) &&
              cachedReceptions == old(cachedReceptions)[(rx, t) := p]
      ensures mapReceptions == Remembering(old(mapReceptions), transmitters[t], rx, p)
    {
      RememberingKeeps(mapReceptions, transmitters[t], rx);
      assert opalId(rx) != id;
      var c := receiversRadios[rx];
      receiversRadios := receiversRadios[rx := Callback(true, p, id, c.transmission)];
      var q;
      ok, q := GetReception(rx, receiversRadios[rx].transmission.value);
      assert receiversRadios == old(receiversRadios);
    }

    /** The transmission is put on the air to every other radio. */
    method SendToAllRadios(tx: nat, t: nat)
      requires receiversRadios.Keys == radios
      modifies this`receiversRadios
      ensures receiversRadios == map rx | rx in radios ::
        if rx == tx then old(receiversRadios)[rx] else old(receiversRadios)[rx].(transmission := Some(t))
    {
      var left := radios;
      while left != {}
        invariant left <= radios && receiversRadios.Keys == radios
        invariant forall rx :: rx in radios ==>
          receiversRadios[rx] ==
            if rx == tx || rx in left then old(receiversRadios)[rx]
            else old(receiversRadios)[rx].(transmission := Some(t))
        decreases left
      {
        var rx :| rx in left;
        if rx != tx {
          receiversRadios := receiversRadios[rx := receiversRadios[rx].(transmission := Some(t))];
        }
        left := left - {rx};
      }
    }

    /** The tracer calls back the receivers it reaches, in whatever order. */
    method TransmitInOpal(tx: nat, t: nat) returns (ok: bool)
      requires Core() && t + 1 == |transmitters| && tx == transmitters[t]
      requires forall rx :: rx in radios && rx != tx ==> receiversRadios[rx].transmission == Some(t)
      requires forall rx, u :: (rx, u) in cachedReceptions ==> u < t
      modifies this`receiversRadios, this`mapReceptions, this`cachedReceptions
      ensures ok && Core() && receiversRadios == old(receiversRadios) && mapReceptions.Keys == old(mapReceptions.Keys)
      ensures forall k :: k in old(cachedReceptions) ==> k in cachedReceptions
      ensures Received(t)
      ensures forall x :: x in mapReceptions && ((x == tx && isStatic) || old(Complete(x))) ==> Complete(x)
    {
      ok := true;
      var left := set rx | rx in radios && trace(tx, rx).Some?;
      while left != {}
        invariant ok && Core() && receiversRadios == old(receiversRadios) &&
                  mapReceptions.Keys == old(mapReceptions.Keys)
        invariant left <= set rx | rx in radios && trace(tx, rx).Some?
        invariant forall k :: k in old(cachedReceptions) ==> k in cachedReceptions
        invariant forall rx :: rx in left ==> (rx, t) !in cachedReceptions
        invariant forall rx :: rx in radios && trace(tx, rx).Some? && rx !in left ==>
          (rx, t) in cachedReceptions && (isStatic && tx in mapReceptions ==> rx in mapReceptions[tx])
        invariant forall x, r :: x in old(mapReceptions) && r in old(mapReceptions)[x] ==> r in mapReceptions[x]
        decreases left
      {
        var rx :| rx in left;
        RememberingKeeps(mapReceptions, tx, rx);
        ok := CreateReception(rx, trace(tx, rx).value, opalId(tx), t);
        left := left - {rx};
      }
      assert isStatic && tx in mapReceptions ==> Complete(tx);
      forall x | x in mapReceptions && old(Complete(x)) ensures Complete(x) {}
    }

    /** The cached powers are reported again instead. */
    method Replay(tx: nat, t: nat) returns (ok: bool)
      requires Core() && t + 1 == |transmitters| && tx == transmitters[t] && tx in mapReceptions && Complete(tx)
      requires forall rx :: rx in radios && rx != tx ==> receiversRadios[rx].transmission == Some(t)
      requires forall rx, u :: (rx, u) in cachedReceptions ==> u < t
      modifies this`receiversRadios, this`mapReceptions, this`cachedReceptions
      ensures ok && Core() && receiversRadios == old(receiversRadios) && mapReceptions == old(mapReceptions)
      ensures forall k :: k in old(cachedReceptions) ==> k in cachedReceptions
      ensures Received(t)
    {
      ok := true;
      var entry := mapReceptions[tx];
      var left := entry.Keys;
      while left != {}
        invariant ok && Core() && receiversRadios == old(receiversRadios) && mapReceptions == old(mapReceptions) &&
                  left <= entry.Keys
        invariant forall k :: k in old(cachedReceptions) ==> k in cachedReceptions
        invariant forall rx :: rx in left ==> (rx, t) !in cachedReceptions
        invariant forall rx :: rx in entry && rx !in left && entry[rx] != 0.0 ==> (rx, t) in cachedReceptions
        decreases left
      {
        var rx :| rx in left;
        if entry[rx] != 0.0 {
          ok := CreateReception(rx, entry[rx], opalId(tx), t);
        }
        left := left - {rx};
      }
    }

    /** Ready for the reports on transmission t: earlier ones are received, and the caches of all but
        perhaps tx complete. */
    ghost predicate OnAir(tx: nat, t: nat, except: bool)
      reads this`transmitters, this`receiversRadios, this`mapReceptions, this`cachedReceptions
    {
      Core() && t + 1 == |transmitters| && tx == transmitters[t] && (forall u :: 0 <= u < t ==> Received(u)) &&
      (forall x :: x in mapReceptions && !(except && x == tx) ==> Complete(x)) &&
      (forall rx :: rx in radios && rx != tx ==> receiversRadios[rx].transmission == Some(t)) &&
      (forall rx, u :: (rx, u) in cachedReceptions ==> u < t)
    }

    method Announce(tx: nat) returns (t: nat)
      requires Valid() && tx in radios
      modifies this`transmitters, this`receiversRadios
      ensures OnAir(tx, t, false) && transmitters == old(transmitters) + [tx]
    {
      t := |transmitters|;
      transmitters := transmitters + [tx];
      SendToAllRadios(tx, t);
      forall u | 0 <= u < t ensures Received(u) { assert old(Received(u)); }
      forall x | x in mapReceptions ensures Complete(x) { assert old(Complete(x)); }
    }

    /** An empty cache entry for the transmitter. */
    method OpenEntry(tx: nat, t: nat)
      requires OnAir(tx, t, false) && tx !in mapReceptions
      modifies this`mapReceptions
      ensures OnAir(tx, t, true) && mapReceptions == old(mapReceptions)[tx := map[]]
    {
      mapReceptions := mapReceptions[tx := map[]];
      forall u | 0 <= u < t ensures Received(u) { assert old(Received(u)); }
      forall x | x in mapReceptions && x != tx ensures Complete(x) { assert old(Complete(x)); }
    }

    /** All reports are in. */
    twostate lemma AllReceived(t: nat)
      requires t + 1 == |transmitters| && transmitters == old(transmitters) && Received(t)
      requires forall u :: 0 <= u < t ==> old(Received(u))
      requires forall k :: k in old(cachedReceptions) ==> k in cachedReceptions
      ensures forall u :: 0 <= u < |transmitters| ==> Received(u)
    {
      forall u | 0 <= u < |transmitters| ensures Received(u) { if u < t { assert old(Received(u)); } }
    }

    method TraceAgain(tx: nat, t: nat, ghost except: bool) returns (ok: bool)
      requires OnAir(tx, t, except) && (except ==> isStatic)
      modifies this`receiversRadios, this`mapReceptions, this`cachedReceptions, this`traced
      ensures ok && Valid() && traced == old(traced) + [tx] && mapReceptions.Keys == old(mapReceptions.Keys)
    {
      ok := TransmitInOpal(tx, t);
      AllReceived(t);
      traced := traced + [tx];
    }

    method ReplayCached(tx: nat, t: nat) returns (ok: bool)
      requires OnAir(tx, t, false) && tx in mapReceptions
      modifies this`receiversRadios, this`mapReceptions, this`cachedReceptions
      ensures ok && Valid() && mapReceptions == old(mapReceptions)
    {
      ok := Replay(tx, t);
      AllReceived(t);
      forall x | x in mapReceptions ensures Complete(x) { assert old(Complete(x)); }
    }

    /** A packet is transmitted: the rays are traced, unless the scene is static and they were before. */
    method TransmitPacket(tx: nat) returns (ok: bool)
      requires Valid() && tx in radios
      modifies this
      ensures ok && Valid() && transmitters == old(transmitters) + [tx]
      ensures traced == if isStatic && tx in old(mapReceptions) then old(traced) else old(traced) + [tx]
      ensures mapReceptions.Keys == if isStatic then old(mapReceptions.Keys) + {tx} else old(mapReceptions.Keys)
      ensures old(Traced()) ==> Traced()
    {
      hide Valid, OnAir;
      var t := Announce(tx);
      if isStatic {
        if tx in mapReceptions {
          ok := ReplayCached(tx, t);
        } else {
          OpenEntry(tx, t);
          ok := TraceAgain(tx, t, true);
        }
      } else {
        ok := TraceAgain(tx, t, false);
      }
    }
  }

  datatype Action = Send(tx: nat) | Query(rx: nat, t: nat)

  /** The reception powers a run of transmissions and queries gives, by the tracer alone. */
  function Expected(trace: (nat, nat) -> Option<real>, radios: set<nat>, transmitters: seq<nat>,
        actions: seq<Action>): seq<real>
    decreases |actions|
  {
    if actions == [] then []
    else
      match actions[0]
      case Send(tx) =>
        Expected(trace, radios, if tx in radios then transmitters + [tx] else transmitters, actions[1..])
      case Query(rx, t) =>
        (if rx in radios && t < |transmitters| then
           var p := trace(transmitters[t], rx);
           [if p.Some? then p.value else 0.0]
         else [])
        + Expected(trace, radios, transmitters, actions[1..])
  }

  /** Every run gives the same powers with the cache as without: those of the tracer. In a static scene it
      traces the rays of each transmitter once. */
  method RunActions(medium: OpalLoRaRadioMedium, actions: seq<Action>) returns (powers: seq<real>)
    requires medium.Valid()
    modifies medium
    ensures medium.Valid() && powers == Expected(medium.trace, medium.radios, old(medium.transmitters), actions)
    ensures old(medium.Traced()) ==> medium.Traced()
  {
    hide OpalLoRaRadioMedium.Valid, OpalLoRaRadioMedium.Traced;
    powers := [];
    var i := 0;
    while i < |actions|
      invariant i <= |actions| && medium.Valid() && (old(medium.Traced()) ==> medium.Traced())
      invariant powers + Expected(medium.trace, medium.radios, medium.transmitters, actions[i..]) ==
                Expected(medium.trace, medium.radios, old(medium.transmitters), actions)
    {
      assert actions[i..][1..] == actions[i + 1..];
      match actions[i] {
        case Send(tx) =>
          if tx in medium.radios {
            var ok := medium.TransmitPacket(tx);
          }
        case Query(rx, t) =>
          if rx in medium.radios && t < |medium.transmitters| {
            var ok, p := medium.QueryReception(rx, t);
            powers := powers + [p];
          }
      }
      i := i + 1;
    }
  }
}
