/**
 The tunnel interface object: its window, caches and statistics updated in place by the loops of the sending thread,
 proved to take only steps of the scheduler.
 */
module TunnelInterface {
  import opened Devices
  import opened Numbers
  import opened PacketLoss
  import opened Tunnel
  import opened TunnelLog

  lemma {:induction false} LegalThen(setup: Setup, s: State, a: seq<Step>, b: seq<Step>)
    requires Fit(setup) && |s.fromClients| == |s.toClients| == |setup.devices| && Legal(setup, s, a)
    requires |After(setup, s, a).fromClients| == |After(setup, s, a).toClients| == |setup.devices|
    requires Legal(setup, After(setup, s, a), b)
    ensures Legal(setup, s, a + b) && After(setup, s, a + b) == After(setup, After(setup, s, a), b)
    decreases |a|
  {
    if a == [] {
      assert a + b == b;
    } else {
      var t := Next(setup, s, a[0]);
      assert (a + b)[1..] == a[1..] + b;
      LegalThen(setup, t, a[1..], b);
    }
  }

  /** One more step. */
  lemma {:induction false} LegalStep(setup: Setup, s: State, steps: seq<Step>, step: Step)
    requires Fit(setup) && |s.fromClients| == |s.toClients| == |setup.devices| && Legal(setup, s, steps)
    requires var t := After(setup, s, steps); |t.fromClients| == |t.toClients| == |setup.devices| && Enabled(setup, t, step)
    ensures Legal(setup, s, steps + [step]) && After(setup, s, steps + [step]) == Next(setup, After(setup, s, steps), step)
  {
    hide Next, Enabled, Legal, After;
    LegalOnce(setup, After(setup, s, steps), step);
    LegalThen(setup, s, steps, [step]);
  }

  lemma {:induction false} LegalOnce(setup: Setup, s: State, step: Step)
    requires Fit(setup) && |s.fromClients| == |s.toClients| == |setup.devices| && Enabled(setup, s, step)
    ensures Legal(setup, s, [step]) && After(setup, s, [step]) == Next(setup, s, step)
  {
    hide Next, Enabled;
    var t := Next(setup, s, step);
    assert [step][0] == step && [step][1..] == [];
    assert Legal(setup, t, []) && After(setup, t, []) == t;
  }

  /** A packet that the receiving thread reads, and how long before it queued it the time was read. */
  datatype Incoming = Incoming(packet: Packet, age: nat, accepted: bool)

  /** What happens elsewhere before the sending thread looks again: time passes, and packets come in. */
  datatype Turn = Turn(elapsed: nat, incoming: seq<Incoming>)

  /** The packets that the window takes, numbered from `n` on. */
  function Admissions(n: nat, now: int, incoming: seq<Incoming>): seq<Entry> {
    if incoming == [] then []
    else
      var k := |incoming| - 1;
      var before := Admissions(n, now, incoming[..k]);
      before + if incoming[k].accepted then [Entry(n + |before|, incoming[k].packet, now - incoming[k].age)] else []
  }

  /** One visit to the queue of a device: the rate limit lets through one packet for every turn. */
  datatype Visit = Visit(device: nat, turns: seq<Turn>)

  /** One round of the sending thread, over the window and the queues in any order. */
  datatype Round = Round(banned: seq<Device>, turns: seq<Turn>, fromClients: seq<Visit>, toClients: seq<Visit>)

  /** No queue is visited twice in a round. */
  predicate VisitsFit(setup: Setup, visits: seq<Visit>) {
    && (forall i | 0 <= i < |visits| :: visits[i].device < |setup.devices|)
    && forall i, j | 0 <= i < j < |visits| :: visits[i].device != visits[j].device
  }

  predicate RoundFits(setup: Setup, round: Round) {
    VisitsFit(setup, round.fromClients) && VisitsFit(setup, round.toClients)
  }

  // ---- what a stretch of the log achieves ----

  /** Nothing is sorted or served, but packets may come in and time may pass. */
  predicate Waits(setup: Setup, before: seq<Step>, steps: seq<Step>) {
    && Now(before) <= Now(steps) && Arrived(before) <= Arrived(steps) && Pops(steps) == Pops(before)
  }

  ghost predicate SameQueues(setup: Setup, before: seq<Step>, steps: seq<Step>) {
    forall q :: Queued(setup.devices, steps, q) == Queued(setup.devices, before, q)
  }

  ghost predicate SameServed(before: seq<Step>, steps: seq<Step>, except: Queue) {
    forall q :: q != except ==> ServedOf(steps, q) == ServedOf(before, q)
  }

  /** The first `k` packets of the window are due. */
  predicate DueUpTo(setup: Setup, steps: seq<Step>, k: nat) {
    && Pops(steps) + k <= |Arrived(steps)|
    && forall e | e in Arrived(steps)[Pops(steps)..Pops(steps) + k] :: 2 * (Now(steps) - e.timestamp) > setup.rtt
  }

  /** Packets that were due, with all before them, have been sorted. */
  ghost predicate DueSorted(setup: Setup, before: seq<Step>, steps: seq<Step>) {
    forall k: nat :: DueUpTo(setup, before, k) ==> Pops(before) + k <= Pops(steps)
  }

  /** As many packets were taken as the rate limit let through, or the queue is empty. */
  ghost predicate QueueDone(setup: Setup, before: seq<Step>, steps: seq<Step>, q: Queue, passes: nat) {
    var taken := ServedOf(steps, q) - ServedOf(before, q);
    0 <= taken <= passes && (taken == passes || ServedOf(steps, q) == |Queued(setup.devices, steps, q)|)
  }

  function QueueFor(v: Visit, outward: bool): Queue {
    if outward then FromClient(v.device) else ToClient(v.device)
  }

  ghost predicate VisitsDone(setup: Setup, before: seq<Step>, steps: seq<Step>, visits: seq<Visit>, outward: bool) {
    forall i | 0 <= i < |visits| :: QueueDone(setup, before, steps, QueueFor(visits[i], outward), |visits[i].turns|)
  }

  predicate Visited(visits: seq<Visit>, outward: bool, q: Queue) {
    exists i | 0 <= i < |visits| :: q == QueueFor(visits[i], outward)
  }

  ghost predicate OthersUntouched(before: seq<Step>, steps: seq<Step>, visits: seq<Visit>, outward: bool) {
    forall q: Queue :: !Visited(visits, outward, q) ==> ServedOf(steps, q) == ServedOf(before, q)
  }

  /** One round: what was due is sorted, and every queue visited is empty, or served as often as the rate limit allows. */
  ghost predicate RoundDone(setup: Setup, round: Round, before: seq<Step>, steps: seq<Step>) {
    && DueSorted(setup, before, steps)
    && VisitsDone(setup, before, steps, round.fromClients, true) && VisitsDone(setup, before, steps, round.toClients, false)
  }

  class TunnelInterface {
    const setup: Setup
    var clock: int
    var arrivals: seq<Entry>
    var window: seq<Entry>
    var busy: bool
    var recvFromClientsCaches: seq<seq<Entry>>
    var recvFromServersCaches: seq<seq<Entry>>
    var recvFromClients: nat
    var processedFromClients: nat
    var sentToServers: nat
    var recvFromServers: nat
    var processedFromServers: nat
    var sentToClients: nat
    var betweenServers: nat
    var lostToServers: nat
    var lostToClients: nat
    var written: seq<Written>

    ghost function Abs(): State
      reads this
    {
      State(clock, arrivals, window, busy, recvFromClientsCaches, recvFromServersCaches,
            recvFromClients, processedFromClients, sentToServers, recvFromServers, processedFromServers, sentToClients,
            betweenServers, lostToServers, lostToClients, written)
    }

    ghost predicate Valid()
      reads this
    {
      Fit(setup) && Shaped(setup, Abs())
    }

    /** Between steps of its own, what the object has done since it was created are `steps` of the scheduler. */
    ghost predicate Ran(steps: seq<Step>)
      reads this
    {
      && Valid() && !busy && Legal(setup, Start(setup), steps)
      && Abs() == After(setup, Start(setup), steps)
    }

    constructor (setup: Setup)
      requires Fit(setup)
      ensures this.setup == setup && Valid() && Abs() == Start(setup)
    {
      this.setup := setup;
      clock, arrivals, window, busy := 0, [], [], false;
      recvFromClientsCaches, recvFromServersCaches := NoneWaiting(|setup.devices|), NoneWaiting(|setup.devices|);
      recvFromClients, processedFromClients, sentToServers := 0, 0, 0;
      recvFromServers, processedFromServers, sentToClients := 0, 0, 0;
      betweenServers, lostToServers, lostToClients, written := 0, 0, 0, [];
    }

    /** The receiving thread: a packet that the window takes is queued with the time that was read before. */
    method Receive(packet: Packet, timestamp: int, accepted: bool)
      requires Valid() && timestamp <= clock
      modifies `arrivals, `window
      ensures Valid() && Abs() == Next(setup, old(Abs()), Arrive(packet, timestamp, accepted))
    {
      if accepted {
        var e := Entry(|arrivals|, packet, timestamp);
        arrivals := arrivals + [e];
        window := window + [e];
      }
    }

    // ---- devices ----

    /** The loop that looks for both ends of a packet and keeps the last device found for each. */
    method FindEnds(packet: Packet) returns (src: MaybeDevice, dst: MaybeDevice)
      ensures src == LastWith(setup.devices, packet.src) && dst == LastWith(setup.devices, packet.dst)
    {
      src, dst := NoDevice, NoDevice;
      var i := 0;
      while i < |setup.devices|
        invariant i <= |setup.devices|
        invariant src == LastWith(setup.devices[..i], packet.src) && dst == LastWith(setup.devices[..i], packet.dst)
      {
        assert setup.devices[..i + 1][..i] == setup.devices[..i];
        if setup.devices[i].hostAddr == packet.src { src := Index(i); }
        if setup.devices[i].hostAddr == packet.dst { dst := Index(i); }
        i := i + 1;
      }
      assert setup.devices[..i] == setup.devices;
    }

    method IsBanned(bannedDevices: seq<Device>, packet: Packet) returns (banned: bool)
      ensures banned <==> exists d | d in bannedDevices :: d.hostAddr == packet.src || d.hostAddr == packet.dst
    {
      var i := 0;
      while i < |bannedDevices|
        invariant i <= |bannedDevices|
        invariant forall k | 0 <= k < i :: bannedDevices[k].hostAddr != packet.src && bannedDevices[k].hostAddr != packet.dst
      {
        if bannedDevices[i].hostAddr == packet.src || bannedDevices[i].hostAddr == packet.dst { return true; }
        i := i + 1;
      }
      return false;
    }

    // ---- sending ----

    /** Writes a packet for a device if the device takes it, and counts it by the kind of the device. */
    method TrySendPacketToDst(e: Entry, q: Queue, i: nat) returns (sent: bool)
      requires i < |setup.devices|
      modifies `written, `sentToClients, `sentToServers
      ensures Abs() == Deliver(setup, old(Abs()), e, q, Index(i)) && sent == Takes(setup.devices[i], e.packet)
    {
      sent := Takes(setup.devices[i], e.packet);
      if sent {
        if setup.devices[i].kind.Client? {
          sentToClients := sentToClients + 1;
        } else {
          sentToServers := sentToServers + 1;
        }
        written := written + [Written(e, q, clock)];
      }
    }

    /** Tries the devices in order until one takes the packet. */
    method TrySendPacket(e: Entry, q: Queue)
      modifies `written, `sentToClients, `sentToServers
      ensures Abs() == Deliver(setup, old(Abs()), e, q, FirstTaking(setup.devices, e.packet, 0))
    {
      var i := 0;
      while i < |setup.devices|
        invariant i <= |setup.devices| && Abs() == old(Abs())
        invariant FirstTaking(setup.devices, e.packet, 0) == FirstTaking(setup.devices, e.packet, i)
      {
        var sent := TrySendPacketToDst(e, q, i);
        if sent { return; }
        i := i + 1;
      }
    }

    /** Sorts the first packet of the window. */
    method ProcessPacket(bannedDevices: seq<Device>)
      requires Valid() && window != [] && !busy
      modifies this
      ensures Abs() == Processed(setup, old(Abs()), exists d | d in bannedDevices ::
                                   d.hostAddr == old(window[0]).packet.src || d.hostAddr == old(window[0]).packet.dst)
    {
      var e := window[0];
      busy := true;
      var banned := IsBanned(bannedDevices, e.packet);
      if banned { return; }
      var src, dst := FindEnds(e.packet);
      if src.Index? && dst.Index? { QueuePacket(e, src.i, dst.i); }
    }

    /** Queues a packet at the client it comes from or goes to; between servers it is sent at once. */
    method QueuePacket(e: Entry, src: nat, dst: nat)
      requires Valid() && window != [] && busy && e == window[0]
      requires LastWith(setup.devices, e.packet.src) == Index(src) && LastWith(setup.devices, e.packet.dst) == Index(dst)
      modifies this
      ensures Abs() == Processed(setup, old(Abs()), false)
    {
      if setup.devices[src].kind.Client? {
        recvFromClients := recvFromClients + 1;
        recvFromClientsCaches := recvFromClientsCaches[src := recvFromClientsCaches[src] + [e]];
      } else if setup.devices[dst].kind.Client? {
        recvFromServers := recvFromServers + 1;
        recvFromServersCaches := recvFromServersCaches[dst := recvFromServersCaches[dst] + [e]];
      } else {
        betweenServers := betweenServers + 1;
        var _ := TrySendPacketToDst(e, Direct, dst);
      }
    }

    // ---- what happens meanwhile ----

    /** Time passes and the receiving thread queues packets, each with a time at most the present. */
    method Observe(turn: Turn, ghost before: seq<Step>) returns (ghost steps: seq<Step>)
      requires Ran(before)
      modifies `clock, `arrivals, `window
      ensures Ran(steps) && clock == old(clock) + turn.elapsed
      ensures arrivals == old(arrivals) + Admissions(|old(arrivals)|, clock, turn.incoming)
      ensures Waits(setup, before, steps) && SameQueues(setup, before, steps) && SameServed(before, steps, Direct)
      ensures ServedOf(steps, Direct) == ServedOf(before, Direct)
    {
      hide After, Legal, Queued, ServedOf, Admitted, Now, Arrived, Pops;
      Passed(setup, before, Tick(clock + turn.elapsed));
      ClockIs(setup, before);
      clock := clock + turn.elapsed;
      steps := before + [Tick(clock)];
      var i := 0;
      while i < |turn.incoming|
        invariant i <= |turn.incoming| && Ran(steps) && clock == old(clock) + turn.elapsed
        invariant arrivals == old(arrivals) + Admissions(|old(arrivals)|, clock, turn.incoming[..i])
        invariant Waits(setup, before, steps) && SameQueues(setup, before, steps) && SameServed(before, steps, Direct)
        invariant ServedOf(steps, Direct) == ServedOf(before, Direct)
      {
        var p := turn.incoming[i];
        ghost var step := Arrive(p.packet, clock - p.age, p.accepted);
        Passed(setup, steps, step);
        steps := steps + [step];
        Receive(p.packet, clock - p.age, p.accepted);
        assert turn.incoming[..i + 1][..i] == turn.incoming[..i];
        i := i + 1;
      }
      assert turn.incoming[..i] == turn.incoming;
    }

    // ---- the sending thread ----

    /** Processes and removes the first packet of the window. */
    method ProcessFirst(bannedDevices: seq<Device>, ghost before: seq<Step>) returns (ghost steps: seq<Step>)
      requires Ran(before) && window != [] && Due(setup, clock, window[0])
      modifies this
      ensures Ran(steps) && window == old(window)[1..] && clock == old(clock)
      ensures Now(steps) == Now(before) && Arrived(steps) == Arrived(before) && Pops(steps) == Pops(before) + 1
      ensures SameServed(before, steps, Direct) && ServedOf(steps, Direct) == ServedOf(before, Direct)
    {
      hide Queued, ServedOf, Now, Arrived, Pops, After, Legal, Processed, Admitted;
      ghost var banned := exists d | d in bannedDevices :: d.hostAddr == window[0].packet.src || d.hostAddr == window[0].packet.dst;
      LegalStep(setup, Start(setup), before, Process(banned));
      LogStep(setup, before, Process(banned));
      ProcessKeeps(setup, Abs(), banned);
      ProcessPacket(bannedDevices);
      steps := before + [Process(banned)];
      LegalStep(setup, Start(setup), steps, Pop);
      LogStep(setup, steps, Pop);
      window := window[1..];
      busy := false;
      steps := steps + [Pop];
    }

    /** Processes and removes the packets of the window that are due, reading the clock again for each. */
    method DrainWindow(bannedDevices: seq<Device>, turns: seq<Turn>, ghost before: seq<Step>) returns (ghost steps: seq<Step>)
      requires Ran(before)
      modifies this
      ensures Ran(steps) && (window == [] || !Due(setup, clock, window[0]))
      ensures DueSorted(setup, before, steps)
      ensures SameServed(before, steps, Direct) && ServedOf(steps, Direct) == ServedOf(before, Direct)
    {
      hide Processed, Sort, Loss, Next, Enabled, Queued, ServedOf, Now, Arrived, Pops, Legal, After, DueSorted;
      steps := before;
      var n := 0;
      if n < |turns| {
        steps := Observe(turns[n], steps);
        n := n + 1;
      }
      while window != [] && 2 * (clock - window[0].timestamp) > setup.rtt
        invariant n <= |turns| && Ran(steps)
        invariant Now(before) <= Now(steps) && Arrived(before) <= Arrived(steps) && Pops(before) <= Pops(steps)
        invariant SameServed(before, steps, Direct) && ServedOf(steps, Direct) == ServedOf(before, Direct)
        decreases |turns| - n, |window|
      {
        steps := ProcessFirst(bannedDevices, steps);
        if n < |turns| {
          steps := Observe(turns[n], steps);
          n := n + 1;
        }
      }
      AllSorted(setup, before, steps, Abs());
    }

    /** Takes the first packet from a client's queue, loses it or sends it on. */
    method ServeClient(d: nat)
      requires Valid() && !busy && d < |setup.devices| && recvFromClientsCaches[d] != []
      modifies this
      ensures Abs() == Served(setup, old(Abs()), FromClient(d), true)
    {
      var e := recvFromClientsCaches[d][0];
      processedFromClients := processedFromClients + 1;
      recvFromClientsCaches := recvFromClientsCaches[d := recvFromClientsCaches[d][1..]];
      if Loss(setup.lossParams, processedFromClients) {
        lostToServers := lostToServers + 1;
      } else {
        TrySendPacket(e, FromClient(d));
      }
    }

    /** Takes the first packet from a queue to a client, loses it or sends it. */
    method ServeServer(d: nat)
      requires Valid() && !busy && d < |setup.devices| && recvFromServersCaches[d] != []
      modifies this
      ensures Abs() == Served(setup, old(Abs()), ToClient(d), true)
    {
      var e := recvFromServersCaches[d][0];
      processedFromServers := processedFromServers + 1;
      recvFromServersCaches := recvFromServersCaches[d := recvFromServersCaches[d][1..]];
      if Loss(setup.lossParams, processedFromServers) {
        lostToClients := lostToClients + 1;
      } else {
        var _ := TrySendPacketToDst(e, ToClient(d), d);
      }
    }

    /** Serves a client's queue until it is empty or the rate limit stops it. */
    method DrainClient(visit: Visit, ghost before: seq<Step>) returns (ghost steps: seq<Step>)
      requires Ran(before) && visit.device < |setup.devices|
      modifies this
      ensures Ran(steps) && Pops(steps) == Pops(before)
      ensures recvFromClientsCaches[visit.device]
           == old(recvFromClientsCaches[visit.device])[Least(|visit.turns|, |old(recvFromClientsCaches[visit.device])|)..]
      ensures SameQueues(setup, before, steps) && SameServed(before, steps, FromClient(visit.device))
      ensures QueueDone(setup, before, steps, FromClient(visit.device), |visit.turns|)
    {
      hide Served, Enabled, Legal, After, Queued, ServedOf, Now, Arrived, Pops;
      var d, n := visit.device, 0;
      steps := before;
      ghost var all := recvFromClientsCaches[d];
      while recvFromClientsCaches[d] != [] && n < |visit.turns|
        invariant Ran(steps) && Pops(steps) == Pops(before)
        invariant n <= |visit.turns| && n <= |all| && recvFromClientsCaches[d] == all[n..]
        invariant SameQueues(setup, before, steps) && SameServed(before, steps, FromClient(d))
        invariant ServedOf(steps, FromClient(d)) == ServedOf(before, FromClient(d)) + n
        decreases |visit.turns| - n
      {
        steps := Observe(visit.turns[n], steps);
        CanServe(setup, Abs(), FromClient(d));
        ServedOnce(setup, steps, FromClient(d));
        ServedKeeps(setup, Abs(), FromClient(d));
        ServeClient(d);
        assert QueueOf(Abs(), FromClient(d)) == all[n..][1..] == all[n + 1..];
        steps := steps + [Serve(FromClient(d), true)];
        n := n + 1;
      }
      QueueLeft(setup, steps, FromClient(d));
    }

    /** The same for the queue to a client. */
    method DrainServer(visit: Visit, ghost before: seq<Step>) returns (ghost steps: seq<Step>)
      requires Ran(before) && visit.device < |setup.devices|
      modifies this
      ensures Ran(steps) && Pops(steps) == Pops(before)
      ensures recvFromServersCaches[visit.device]
           == old(recvFromServersCaches[visit.device])[Least(|visit.turns|, |old(recvFromServersCaches[visit.device])|)..]
      ensures SameQueues(setup, before, steps) && SameServed(before, steps, ToClient(visit.device))
      ensures QueueDone(setup, before, steps, ToClient(visit.device), |visit.turns|)
    {
      hide Served, Enabled, Legal, After, Queued, ServedOf, Now, Arrived, Pops;
      var d, n := visit.device, 0;
      steps := before;
      ghost var all := recvFromServersCaches[d];
      while recvFromServersCaches[d] != [] && n < |visit.turns|
        invariant Ran(steps) && Pops(steps) == Pops(before)
        invariant n <= |visit.turns| && n <= |all| && recvFromServersCaches[d] == all[n..]
        invariant SameQueues(setup, before, steps) && SameServed(before, steps, ToClient(d))
        invariant ServedOf(steps, ToClient(d)) == ServedOf(before, ToClient(d)) + n
        decreases |visit.turns| - n
      {
        steps := Observe(visit.turns[n], steps);
        CanServe(setup, Abs(), ToClient(d));
        ServedOnce(setup, steps, ToClient(d));
        ServedKeeps(setup, Abs(), ToClient(d));
        ServeServer(d);
        assert QueueOf(Abs(), ToClient(d)) == all[n..][1..] == all[n + 1..];
        steps := steps + [Serve(ToClient(d), true)];
        n := n + 1;
      }
      QueueLeft(setup, steps, ToClient(d));
    }

    /** Visits the queues of what comes from clients. */
    method DrainClients(visits: seq<Visit>, ghost before: seq<Step>) returns (ghost steps: seq<Step>)
      requires Ran(before) && VisitsFit(setup, visits)
      modifies this
      ensures Ran(steps) && Pops(steps) == Pops(before) && SameQueues(setup, before, steps)
      ensures VisitsDone(setup, before, steps, visits, true) && OthersUntouched(before, steps, visits, true)
    {
      hide Legal, After, Queued, ServedOf, Pops, QueueDone;
      steps := before;
      var i := 0;
      while i < |visits|
        invariant i <= |visits| && Ran(steps) && Pops(steps) == Pops(before) && SameQueues(setup, before, steps)
        invariant VisitsDone(setup, before, steps, visits[..i], true) && OthersUntouched(before, steps, visits[..i], true)
      {
        ghost var next := DrainClient(visits[i], steps);
        VisitMore(setup, before, steps, next, visits, i, true);
        steps := next;
        i := i + 1;
      }
      assert visits[..i] == visits;
    }

    /** Visits the queues to clients. */
    method DrainServers(visits: seq<Visit>, ghost before: seq<Step>) returns (ghost steps: seq<Step>)
      requires Ran(before) && VisitsFit(setup, visits)
      modifies this
      ensures Ran(steps) && Pops(steps) == Pops(before) && SameQueues(setup, before, steps)
      ensures VisitsDone(setup, before, steps, visits, false) && OthersUntouched(before, steps, visits, false)
    {
      hide Legal, After, Queued, ServedOf, Pops, QueueDone;
      steps := before;
      var i := 0;
      while i < |visits|
        invariant i <= |visits| && Ran(steps) && Pops(steps) == Pops(before) && SameQueues(setup, before, steps)
        invariant VisitsDone(setup, before, steps, visits[..i], false) && OthersUntouched(before, steps, visits[..i], false)
      {
        ghost var next := DrainServer(visits[i], steps);
        VisitMore(setup, before, steps, next, visits, i, false);
        steps := next;
        i := i + 1;
      }
      assert visits[..i] == visits;
    }

    /** One round: the window, then the queues of what comes from clients, then those of what goes to them. */
    method SendOnce(round: Round, ghost before: seq<Step>) returns (ghost steps: seq<Step>)
      requires Ran(before) && RoundFits(setup, round)
      modifies this
      ensures Ran(steps) && RoundDone(setup, round, before, steps)
    {
      hide Legal, After, Queued, ServedOf, Pops, QueueDone, VisitsDone, OthersUntouched, SameQueues, SameServed, DueUpTo;
      ghost var sorted := DrainWindow(round.banned, round.turns, before);
      ghost var mid := DrainClients(round.fromClients, sorted);
      steps := DrainServers(round.toClients, mid);
      RoundIs(setup, round, before, sorted, mid, steps);
    }

    /** The sending thread until it is interrupted, after so many rounds; `marks` is the log after each of them. */
    method Send(rounds: seq<Round>, ghost before: seq<Step>) returns (ghost marks: seq<seq<Step>>)
      requires Ran(before) && forall r | r in rounds :: RoundFits(setup, r)
      modifies this
      ensures |marks| == |rounds| + 1 && marks[0] == before && Ran(marks[|rounds|])
      ensures forall i | 0 <= i < |rounds| :: RoundDone(setup, rounds[i], marks[i], marks[i + 1])
    {
      hide RoundDone, Legal, After;
      marks := [before];
      var i := 0;
      while i < |rounds|
        invariant i <= |rounds| && |marks| == i + 1 && marks[0] == before && Ran(marks[i])
        invariant forall j | 0 <= j < i :: RoundDone(setup, rounds[j], marks[j], marks[j + 1])
      {
        ghost var steps := SendOnce(rounds[i], marks[i]);
        marks := marks + [steps];
        i := i + 1;
      }
    }
  }

  /**
   A tunnel started and run for any number of rounds, whatever comes in meanwhile: every round does its work, and the state
   is one that keeps every promise and delivers every packet.
   */
  method Simulate(setup: Setup, rounds: seq<Round>) returns (t: TunnelInterface, ghost marks: seq<seq<Step>>)
    requires Fit(setup) && forall r | r in rounds :: RoundFits(setup, r)
    ensures t.setup == setup && t.Valid() && Counted(setup, t.Abs()) && Timely(setup, t.Abs()) && WrittenInOrder(t.Abs())
    ensures |marks| == |rounds| + 1 && marks[0] == []
    ensures forall i | 0 <= i < |rounds| :: RoundDone(setup, rounds[i], marks[i], marks[i + 1])
    ensures var steps := marks[|rounds|];
            && Agrees(setup, steps, t.Abs()) && Accounted(setup, steps, t.Abs())
            && DeliversKept(Taken(setup, steps), t.written)
  {
    hide RoundDone, Agrees, Accounted, DeliversKept, Counted, Timely, WrittenInOrder;
    t := new TunnelInterface(setup);
    StartInvariant(setup);
    assert Legal(setup, Start(setup), []);
    marks := t.Send(rounds, []);
    EveryRun(setup, marks[|rounds|]);
    EveryRunDelivers(setup, marks[|rounds|]);
  }

  // ---- one visit after another ----

  lemma {:induction false} VisitMore(setup: Setup, before: seq<Step>, steps: seq<Step>, next: seq<Step>, visits: seq<Visit>, i: nat, outward: bool)
    requires i < |visits| && VisitsFit(setup, visits) && SameQueues(setup, before, steps) && SameQueues(setup, steps, next)
    requires VisitsDone(setup, before, steps, visits[..i], outward) && OthersUntouched(before, steps, visits[..i], outward)
    requires var q := QueueFor(visits[i], outward); SameServed(steps, next, q) && QueueDone(setup, steps, next, q, |visits[i].turns|)
    ensures SameQueues(setup, before, next)
    ensures VisitsDone(setup, before, next, visits[..i + 1], outward) && OthersUntouched(before, next, visits[..i + 1], outward)
  {
    hide Queued, ServedOf;
    var q := QueueFor(visits[i], outward);
    var more := visits[..i + 1];
    assert !Visited(visits[..i], outward, q);
    forall j | 0 <= j < |more| ensures QueueDone(setup, before, next, QueueFor(more[j], outward), |more[j].turns|) {
      if j < i { assert visits[..i][j] == visits[j] && QueueFor(visits[j], outward) != q; }
    }
    forall p: Queue | !Visited(more, outward, p) ensures ServedOf(next, p) == ServedOf(before, p) {
      assert more[i] == visits[i];
      forall j | 0 <= j < i ensures p != QueueFor(visits[..i][j], outward) { assert more[j] == visits[..i][j]; }
      assert !Visited(visits[..i], outward, p);
    }
  }

  lemma {:induction false} RoundIs(setup: Setup, round: Round, before: seq<Step>, sorted: seq<Step>, mid: seq<Step>, steps: seq<Step>)
    requires DueSorted(setup, before, sorted) && SameServed(before, sorted, Direct) && Pops(mid) == Pops(sorted) == Pops(steps)
    requires SameQueues(setup, sorted, mid) && SameQueues(setup, mid, steps)
    requires VisitsDone(setup, sorted, mid, round.fromClients, true) && OthersUntouched(sorted, mid, round.fromClients, true)
    requires VisitsDone(setup, mid, steps, round.toClients, false) && OthersUntouched(mid, steps, round.toClients, false)
    ensures RoundDone(setup, round, before, steps)
  {
    hide Queued, ServedOf, Pops, DueUpTo;
    var outs, ins := round.fromClients, round.toClients;
    forall i | 0 <= i < |outs| ensures QueueDone(setup, before, steps, QueueFor(outs[i], true), |outs[i].turns|) {
      assert !Visited(ins, false, QueueFor(outs[i], true));
      assert QueueDone(setup, sorted, mid, QueueFor(outs[i], true), |outs[i].turns|);
    }
    forall i | 0 <= i < |ins| ensures QueueDone(setup, before, steps, QueueFor(ins[i], false), |ins[i].turns|) {
      assert !Visited(outs, true, QueueFor(ins[i], false));
      assert QueueDone(setup, mid, steps, QueueFor(ins[i], false), |ins[i].turns|);
    }
  }

  // ---- steps and the log ----

  /** A step of the clock or of the receiving thread. */
  lemma {:induction false} Passed(setup: Setup, steps: seq<Step>, step: Step)
    requires Fit(setup) && Legal(setup, Start(setup), steps) && Enabled(setup, After(setup, Start(setup), steps), step)
    requires step.Tick? || step.Arrive?
    ensures Legal(setup, Start(setup), steps + [step])
    ensures After(setup, Start(setup), steps + [step]) == Next(setup, After(setup, Start(setup), steps), step)
    ensures Waits(setup, steps, steps + [step]) && SameQueues(setup, steps, steps + [step])
    ensures forall q :: ServedOf(steps + [step], q) == ServedOf(steps, q)
  {
    LegalStep(setup, Start(setup), steps, step);
    LogStep(setup, steps, step);
    ClockIs(setup, steps);
    forall q ensures Queued(setup.devices, steps + [step], q) == Queued(setup.devices, steps, q) {
      assert Admitted(setup.devices, steps + [step], q) == [];
    }
  }

  lemma {:induction false} ClockIs(setup: Setup, steps: seq<Step>)
    requires Fit(setup) && Legal(setup, Start(setup), steps)
    ensures WindowAgrees(steps, After(setup, Start(setup), steps))
  {
    RunAgrees(setup, steps);
  }

  lemma {:induction false} ServedOnce(setup: Setup, steps: seq<Step>, q: Queue)
    requires Fit(setup) && Legal(setup, Start(setup), steps)
    requires Enabled(setup, After(setup, Start(setup), steps), Serve(q, true))
    ensures var t := steps + [Serve(q, true)];
            && Legal(setup, Start(setup), t)
            && After(setup, Start(setup), t) == Next(setup, After(setup, Start(setup), steps), Serve(q, true))
            && Pops(t) == Pops(steps) && SameQueues(setup, steps, t) && SameServed(steps, t, q)
            && ServedOf(t, q) == ServedOf(steps, q) + 1
  {
    var t := steps + [Serve(q, true)];
    LegalStep(setup, Start(setup), steps, Serve(q, true));
    LogStep(setup, steps, Serve(q, true));
    forall p ensures Queued(setup.devices, t, p) == Queued(setup.devices, steps, p) {
      assert Admitted(setup.devices, t, p) == [];
    }
  }

  lemma {:induction false} QueueLeft(setup: Setup, steps: seq<Step>, q: Queue)
    requires Fit(setup) && Legal(setup, Start(setup), steps) && !q.Direct? && HasQueue(setup, q)
    ensures |QueueOf(After(setup, Start(setup), steps), q)| + ServedOf(steps, q) == |Queued(setup.devices, steps, q)|
  {
    RunAgrees(setup, steps);
    assert QueueAgrees(setup, steps, After(setup, Start(setup), steps), q);
  }

  /** Once the first packet of the window is not due, everything that was due before has been sorted. */
  lemma {:induction false} AllSorted(setup: Setup, before: seq<Step>, steps: seq<Step>, s: State)
    requires Fit(setup) && Legal(setup, Start(setup), steps) && s == After(setup, Start(setup), steps)
    requires Now(before) <= Now(steps) && Arrived(before) <= Arrived(steps) && Pops(before) <= Pops(steps)
    requires s.window == [] || !Due(setup, s.clock, s.window[0])
    ensures DueSorted(setup, before, steps)
  {
    ClockIs(setup, steps);
    forall k: nat | DueUpTo(setup, before, k) ensures Pops(before) + k <= Pops(steps) {
      var p := Pops(steps);
      if p < Pops(before) + k {
        assert s.window[0] == Arrived(steps)[p] == Arrived(before)[p];
        DueThen(setup, before, k, p);
      }
    }
  }

  lemma {:induction false} DueThen(setup: Setup, steps: seq<Step>, k: nat, p: nat)
    requires DueUpTo(setup, steps, k) && Pops(steps) <= p < Pops(steps) + k
    ensures Due(setup, Now(steps), Arrived(steps)[p])
  {
    var due := Arrived(steps)[Pops(steps)..Pops(steps) + k];
    assert due[p - Pops(steps)] == Arrived(steps)[p] && Arrived(steps)[p] in due;
  }

  lemma {:induction false} CanServe(setup: Setup, s: State, q: Queue)
    requires Shaped(setup, s) && !s.busy && !q.Direct? && q.device < |setup.devices| && QueueOf(s, q) != []
    ensures Enabled(setup, s, Serve(q, true))
  {
  }

  lemma {:induction false} ProcessKeeps(setup: Setup, s: State, banned: bool)
    requires Fit(setup) && Shaped(setup, s) && s.window != []
    ensures var t := Processed(setup, s, banned);
            Shaped(setup, t) && t.window == s.window && t.busy && t.clock == s.clock
  {
    ProcessedHistory(setup, s, banned, Direct);
  }

  lemma {:induction false} ServedKeeps(setup: Setup, s: State, q: Queue)
    requires Fit(setup) && Shaped(setup, s) && Enabled(setup, s, Serve(q, true))
    ensures var t := Served(setup, s, q, true);
            Shaped(setup, t) && t.busy == s.busy && QueueOf(t, q) == QueueOf(s, q)[1..]
  {
  }
}
