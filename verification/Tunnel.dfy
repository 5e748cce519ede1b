/**
 The tunnel's packet scheduler as a state machine: a receiving thread that queues packets, and a sending thread that
 holds them back for half a round trip, sorts them to their devices, and drops or delivers them.
 */
module Tunnel {
  import opened Devices
  import opened PacketLoss

  /** The parts of a packet that decide where it goes: the last bytes of its addresses, and whether it is TCP or UDP. */
  datatype Packet = Packet(src: byte, dst: byte, rewritable: bool, length: nat)

  /** A packet with its arrival number and time. */
  datatype Entry = Entry(id: nat, packet: Packet, timestamp: int)

  /** Where a packet waits, or leaves from: the queue from a client, the queue to a client, or neither. */
  datatype Queue = FromClient(device: nat) | ToClient(device: nat) | Direct

  /** A packet written to the tunnel: when, and from which queue. */
  datatype Written = Written(entry: Entry, queue: Queue, at: int)

  /** What does not change while the tunnel runs. */
  datatype Setup = Setup(devices: seq<Device>, rtt: int, lossParams: LossParams)

  predicate Fit(setup: Setup) {
    Periodic(setup.lossParams)
  }

  /**
   The window of packets that have arrived, whether the sending thread is between processing the first and removing it,
   the queues by device, the statistics, and what has been written.
   */
  datatype State = State(
    clock: int,
    arrivals: seq<Entry>,
    window: seq<Entry>,
    busy: bool,
    fromClients: seq<seq<Entry>>,
    toClients: seq<seq<Entry>>,
    recvFromClients: nat,
    processedFromClients: nat,
    sentToServers: nat,
    recvFromServers: nat,
    processedFromServers: nat,
    sentToClients: nat,
    betweenServers: nat,
    lostToServers: nat,
    lostToClients: nat,
    written: seq<Written>)

  function NoneWaiting(n: nat): seq<seq<Entry>> {
    seq(n, _ => [])
  }

  function Start(setup: Setup): (t: State)
    ensures |t.fromClients| == |t.toClients| == |setup.devices|
  {
    var none := NoneWaiting(|setup.devices|);
    State(0, [], [], false, none, none, 0, 0, 0, 0, 0, 0, 0, 0, 0, [])
  }

  // ---- devices ----

  datatype MaybeDevice = NoDevice | Index(i: nat)

  /** The last device with this address: the loop over the devices goes on after a match. */
  function LastWith(devices: seq<Device>, addr: byte): (r: MaybeDevice)
    ensures r.Index? ==> r.i < |devices| && devices[r.i].hostAddr == addr
    ensures r.NoDevice? ==> forall i | 0 <= i < |devices| :: devices[i].hostAddr != addr
  {
    if devices == [] then NoDevice
    else if devices[|devices| - 1].hostAddr == addr then Index(|devices| - 1)
    else LastWith(devices[..|devices| - 1], addr)
  }

  /** The first device that takes a packet: the loop stops there. */
  function FirstTaking(devices: seq<Device>, packet: Packet, from: nat): (r: MaybeDevice)
    requires from <= |devices|
    ensures r.Index? ==> from <= r.i < |devices| && Takes(devices[r.i], packet)
    decreases |devices| - from
  {
    if from == |devices| then NoDevice
    else if Takes(devices[from], packet) then Index(from)
    else FirstTaking(devices, packet, from + 1)
  }

  predicate Takes(device: Device, packet: Packet) {
    packet.rewritable && packet.dst == device.hostAddr
  }

  /** Where a packet is sorted to, unless no device knows one of its ends. */
  datatype Sorted = Nowhere | Sorted(queue: Queue, dst: nat)

  function Sort(devices: seq<Device>, packet: Packet): (r: Sorted)
    ensures r.Sorted? ==> r.dst < |devices| && (!r.queue.Direct? ==> r.queue.device < |devices|)
  {
    var src, dst := LastWith(devices, packet.src), LastWith(devices, packet.dst);
    if src.NoDevice? || dst.NoDevice? then Nowhere
    else if devices[src.i].kind.Client? then Sorted(FromClient(src.i), dst.i)
    else if devices[dst.i].kind.Client? then Sorted(ToClient(dst.i), dst.i)
    else Sorted(Direct, dst.i)
  }

  // ---- steps ----

  datatype Step =
    | Tick(now: int)
    | Arrive(packet: Packet, timestamp: int, accepted: bool)
    | Process(banned: bool)
    | Pop
    | Serve(queue: Queue, consumed: bool)

  /** Half a round trip has passed since the packet arrived. */
  predicate Due(setup: Setup, clock: int, e: Entry) {
    2 * (clock - e.timestamp) > setup.rtt
  }

  function QueueOf(s: State, q: Queue): seq<Entry>
    requires (q.FromClient? ==> q.device < |s.fromClients|) && (q.ToClient? ==> q.device < |s.toClients|)
  {
    match q
    case FromClient(d) => s.fromClients[d]
    case ToClient(d) => s.toClients[d]
    case Direct => []
  }

  /** When a thread may take a step.  The time of arrival is read before the packet is queued, and may be earlier. */
  predicate Enabled(setup: Setup, s: State, step: Step) {
    match step
    case Tick(now) => now >= s.clock
    case Arrive(_, timestamp, _) => timestamp <= s.clock
    case Process(_) => !s.busy && s.window != [] && Due(setup, s.clock, s.window[0])
    case Pop => s.busy && s.window != []
    case Serve(q, _) =>
      && !s.busy && !q.Direct?
      && (q.FromClient? ==> q.device < |s.fromClients|) && (q.ToClient? ==> q.device < |s.toClients|)
      && QueueOf(s, q) != []
  }

  /** A packet written for a device, counted by the kind of the device. */
  function Deliver(setup: Setup, s: State, e: Entry, q: Queue, to: MaybeDevice): State
    requires to.Index? ==> to.i < |setup.devices|
  {
    if to.NoDevice? || !Takes(setup.devices[to.i], e.packet) then s
    else
      var sent := s.(written := s.written + [Written(e, q, s.clock)]);
      if setup.devices[to.i].kind.Client? then sent.(sentToClients := s.sentToClients + 1)
      else sent.(sentToServers := s.sentToServers + 1)
  }

  /** Sorts the first packet of the window. */
  function Processed(setup: Setup, s: State, banned: bool): State
    requires s.window != [] && |s.fromClients| == |s.toClients| == |setup.devices|
  {
    var e := s.window[0];
    var sorted := Sort(setup.devices, e.packet);
    var t := s.(busy := true);
    if banned || sorted.Nowhere? then t
    else
      match sorted.queue
      case FromClient(d) =>
        t.(recvFromClients := s.recvFromClients + 1, fromClients := s.fromClients[d := s.fromClients[d] + [e]])
      case ToClient(d) =>
        t.(recvFromServers := s.recvFromServers + 1, toClients := s.toClients[d := s.toClients[d] + [e]])
      case Direct =>
        Deliver(setup, t.(betweenServers := s.betweenServers + 1), e, Direct, Index(sorted.dst))
  }

  /** Takes the first packet of a queue, if the rate limit lets it pass, and loses or delivers it. */
  function Served(setup: Setup, s: State, q: Queue, consumed: bool): State
    requires Fit(setup) && Enabled(setup, s, Serve(q, consumed)) && |s.fromClients| == |s.toClients| == |setup.devices|
  {
    if !consumed then s
    else
      var e := QueueOf(s, q)[0];
      match q
      case FromClient(d) =>
        var n := s.processedFromClients + 1;
        var t := s.(processedFromClients := n, fromClients := s.fromClients[d := s.fromClients[d][1..]]);
        if Loss(setup.lossParams, n) then t.(lostToServers := s.lostToServers + 1)
        else Deliver(setup, t, e, q, FirstTaking(setup.devices, e.packet, 0))
      case ToClient(d) =>
        var n := s.processedFromServers + 1;
        var t := s.(processedFromServers := n, toClients := s.toClients[d := s.toClients[d][1..]]);
        if Loss(setup.lossParams, n) then t.(lostToClients := s.lostToClients + 1)
        else Deliver(setup, t, e, q, Index(d))
      case Direct => s
  }

  /** One step of either thread, or of the clock. */
  function Next(setup: Setup, s: State, step: Step): (t: State)
    requires Fit(setup) && Enabled(setup, s, step) && |s.fromClients| == |s.toClients| == |setup.devices|
    ensures |t.fromClients| == |t.toClients| == |setup.devices|
  {
    match step
    case Tick(now) => s.(clock := now)
    case Arrive(packet, timestamp, accepted) =>
      if !accepted then s
      else
        var e := Entry(|s.arrivals|, packet, timestamp);
        s.(arrivals := s.arrivals + [e], window := s.window + [e])
    case Process(banned) => Processed(setup, s, banned)
    case Pop => s.(busy := false, window := s.window[1..])
    case Serve(q, consumed) => Served(setup, s, q, consumed)
  }

  // ---- counting ----

  function Total(queues: seq<seq<Entry>>): nat {
    if queues == [] then 0 else |queues[0]| + Total(queues[1..])
  }

  lemma {:induction false} TotalUpdate(queues: seq<seq<Entry>>, i: nat, q: seq<Entry>)
    requires i < |queues|
    ensures Total(queues[i := q]) == Total(queues) - |queues[i]| + |q|
  {
    if i == 0 {
      assert queues[0 := q][1..] == queues[1..];
    } else {
      assert queues[i := q][1..] == queues[1..][i - 1 := q];
      TotalUpdate(queues[1..], i - 1, q);
    }
  }

  lemma {:induction false} TotalEmpty(n: nat)
    ensures Total(NoneWaiting(n)) == 0
  {
    if n > 0 {
      assert NoneWaiting(n)[1..] == NoneWaiting(n - 1);
      TotalEmpty(n - 1);
    }
  }

  predicate Shaped(setup: Setup, s: State) {
    |s.fromClients| == |s.toClients| == |setup.devices| && (s.busy ==> s.window != [])
  }

  /**
   What was received waits or has been processed; everything sent is in the output; no more is sent or lost than was
   processed or passed between servers; and exactly as many are lost as the loss function says.
   */
  predicate Counted(setup: Setup, s: State)
    requires Fit(setup)
  {
    && s.recvFromClients == Total(s.fromClients) + s.processedFromClients
    && s.recvFromServers == Total(s.toClients) + s.processedFromServers
    && s.sentToServers + s.sentToClients == |s.written|
    && |s.written| + s.lostToServers + s.lostToClients <= s.processedFromClients + s.processedFromServers + s.betweenServers
    && s.lostToServers == Dropped(setup.lossParams, s.processedFromClients)
    && s.lostToClients == Dropped(setup.lossParams, s.processedFromServers)
  }

  lemma {:induction false} DeliverCounts(setup: Setup, s: State, e: Entry, q: Queue, to: MaybeDevice)
    requires to.Index? ==> to.i < |setup.devices|
    ensures var t := Deliver(setup, s, e, q, to);
            && t.sentToServers + t.sentToClients - |t.written| == s.sentToServers + s.sentToClients - |s.written|
            && |s.written| <= |t.written| <= |s.written| + 1
            && t == s.(written := t.written, sentToServers := t.sentToServers, sentToClients := t.sentToClients)
  {
  }

  lemma {:induction false} ServedCounts(setup: Setup, s: State, q: Queue, consumed: bool)
    requires Fit(setup) && Shaped(setup, s) && Counted(setup, s) && Enabled(setup, s, Serve(q, consumed))
    ensures Counted(setup, Served(setup, s, q, consumed)) && Shaped(setup, Served(setup, s, q, consumed))
  {
    hide Loss, FirstTaking, Takes, Total;
    if consumed {
      var e := QueueOf(s, q)[0];
      match q
      case FromClient(d) =>
        TotalUpdate(s.fromClients, d, s.fromClients[d][1..]);
        var t := s.(processedFromClients := s.processedFromClients + 1, fromClients := s.fromClients[d := s.fromClients[d][1..]]);
        DeliverCounts(setup, t, e, q, FirstTaking(setup.devices, e.packet, 0));
      case ToClient(d) =>
        TotalUpdate(s.toClients, d, s.toClients[d][1..]);
        var t := s.(processedFromServers := s.processedFromServers + 1, toClients := s.toClients[d := s.toClients[d][1..]]);
        DeliverCounts(setup, t, e, q, Index(d));
    }
  }

  lemma {:induction false} ProcessedCounts(setup: Setup, s: State, banned: bool)
    requires Fit(setup) && Shaped(setup, s) && Counted(setup, s) && s.window != []
    ensures Counted(setup, Processed(setup, s, banned)) && Shaped(setup, Processed(setup, s, banned))
  {
    hide Sort, Takes, Total, Dropped;
    var e := s.window[0];
    var sorted := Sort(setup.devices, e.packet);
    if !banned && sorted.Sorted? {
      match sorted.queue
      case FromClient(d) => TotalUpdate(s.fromClients, d, s.fromClients[d] + [e]);
      case ToClient(d) => TotalUpdate(s.toClients, d, s.toClients[d] + [e]);
      case Direct => DeliverCounts(setup, s.(busy := true, betweenServers := s.betweenServers + 1), e, Direct, Index(sorted.dst));
    }
  }

  lemma {:induction false} NextCounts(setup: Setup, s: State, step: Step)
    requires Fit(setup) && Shaped(setup, s) && Counted(setup, s) && Enabled(setup, s, step)
    ensures Counted(setup, Next(setup, s, step)) && Shaped(setup, Next(setup, s, step))
  {
    match step
    case Process(banned) => ProcessedCounts(setup, s, banned);
    case Serve(q, consumed) => ServedCounts(setup, s, q, consumed);
    case _ =>
  }

  // ---- time ----

  predicate AllDue(setup: Setup, clock: int, entries: seq<Entry>) {
    forall e | e in entries :: Due(setup, clock, e)
  }

  lemma {:induction false} AllDueTail(setup: Setup, clock: int, entries: seq<Entry>)
    requires AllDue(setup, clock, entries) && entries != []
    ensures Due(setup, clock, entries[0]) && AllDue(setup, clock, entries[1..])
  {
    assert entries[0] in entries;
    forall e | e in entries[1..] ensures Due(setup, clock, e) {
      assert e in entries;
    }
  }

  /** What waits in a queue, or has been written, had waited more than half a round trip before. */
  predicate Timely(setup: Setup, s: State) {
    && (forall d | 0 <= d < |s.fromClients| :: AllDue(setup, s.clock, s.fromClients[d]))
    && (forall d | 0 <= d < |s.toClients| :: AllDue(setup, s.clock, s.toClients[d]))
    && (forall w | w in s.written :: w.at <= s.clock && 2 * (w.at - w.entry.timestamp) > setup.rtt)
  }

  lemma {:induction false} NextTimely(setup: Setup, s: State, step: Step)
    requires Fit(setup) && Shaped(setup, s) && Timely(setup, s) && Enabled(setup, s, step)
    ensures Timely(setup, Next(setup, s, step))
  {
    match step
    case Process(banned) => ProcessedTimely(setup, s, banned);
    case Serve(q, consumed) => ServedTimely(setup, s, q, consumed);
    case _ =>
  }

  lemma {:induction false} DeliverTimely(setup: Setup, s: State, e: Entry, q: Queue, to: MaybeDevice)
    requires Timely(setup, s) && Due(setup, s.clock, e) && (to.Index? ==> to.i < |setup.devices|)
    ensures Timely(setup, Deliver(setup, s, e, q, to))
  {
  }

  lemma {:induction false} ProcessedTimely(setup: Setup, s: State, banned: bool)
    requires Shaped(setup, s) && Timely(setup, s) && s.window != [] && Due(setup, s.clock, s.window[0])
    ensures Timely(setup, Processed(setup, s, banned))
  {
    var e := s.window[0];
    var sorted := Sort(setup.devices, e.packet);
    if !banned && sorted.Sorted? && sorted.queue.Direct? {
      DeliverTimely(setup, s.(busy := true, betweenServers := s.betweenServers + 1), e, Direct, Index(sorted.dst));
    }
  }

  lemma {:induction false} ServedTimely(setup: Setup, s: State, q: Queue, consumed: bool)
    requires Fit(setup) && Shaped(setup, s) && Timely(setup, s) && Enabled(setup, s, Serve(q, consumed))
    ensures Timely(setup, Served(setup, s, q, consumed))
  {
    if consumed {
      var e := QueueOf(s, q)[0];
      AllDueTail(setup, s.clock, QueueOf(s, q));
      match q
      case FromClient(d) =>
        var t := s.(processedFromClients := s.processedFromClients + 1, fromClients := s.fromClients[d := s.fromClients[d][1..]]);
        assert Timely(setup, t);
        DeliverTimely(setup, t, e, q, FirstTaking(setup.devices, e.packet, 0));
      case ToClient(d) =>
        var t := s.(processedFromServers := s.processedFromServers + 1, toClients := s.toClients[d := s.toClients[d][1..]]);
        assert Timely(setup, t);
        DeliverTimely(setup, t, e, q, Index(d));
    }
  }

  // ---- order ----

  /** What has left a queue. */
  function Left(written: seq<Written>, q: Queue): seq<Entry> {
    if written == [] then []
    else
      var n := |written| - 1;
      Left(written[..n], q) + (if written[n].queue == q then [written[n].entry] else [])
  }

  lemma {:induction false} LeftMore(written: seq<Written>, w: Written, q: Queue)
    ensures Left(written + [w], q) == Left(written, q) + (if w.queue == q then [w.entry] else [])
  {
    assert (written + [w])[..|written|] == written;
  }

  predicate HasQueue(setup: Setup, q: Queue) {
    q.Direct? || q.device < |setup.devices|
  }

  /** What has left a queue, and then what waits in it. */
  function History(setup: Setup, s: State, q: Queue): seq<Entry>
    requires Shaped(setup, s) && HasQueue(setup, q)
  {
    Left(s.written, q) + QueueOf(s, q)
  }

  /** How many of the packets that arrived have been processed. */
  function Frontier(s: State): int {
    |s.arrivals| - |s.window| + (if s.busy then 1 else 0)
  }

  /** The window is the end of what arrived, numbered in order of arrival. */
  predicate Windowed(s: State) {
    && |s.window| <= |s.arrivals| && s.window == s.arrivals[|s.arrivals| - |s.window|..]
    && forall i | 0 <= i < |s.arrivals| :: s.arrivals[i].id == i
  }

  /** Packets of this queue that have been processed, in order of arrival. */
  predicate Chain(setup: Setup, arrivals: seq<Entry>, frontier: int, q: Queue, entries: seq<Entry>) {
    && (forall i | 0 <= i < |entries| :: Belongs(setup, arrivals, frontier, q, entries[i]))
    && (forall i, j | 0 <= i < j < |entries| :: entries[i].id < entries[j].id)
  }

  predicate Belongs(setup: Setup, arrivals: seq<Entry>, frontier: int, q: Queue, e: Entry) {
    && e.id < frontier <= |arrivals| && arrivals[e.id] == e
    && var sorted := Sort(setup.devices, e.packet); sorted.Sorted? && sorted.queue == q
  }

  ghost predicate Ordered(setup: Setup, s: State)
    requires Shaped(setup, s)
  {
    Windowed(s) && forall q | HasQueue(setup, q) :: Chain(setup, s.arrivals, Frontier(s), q, History(setup, s, q))
  }

  lemma {:induction false} ChainGrows(setup: Setup, arrivals: seq<Entry>, frontier: int, q: Queue, entries: seq<Entry>, e: Entry)
    requires Chain(setup, arrivals, frontier, q, entries) && Belongs(setup, arrivals, frontier + 1, q, e) && e.id == frontier
    ensures Chain(setup, arrivals, frontier + 1, q, entries + [e])
  {
  }

  lemma {:induction false} ChainStays(setup: Setup, arrivals: seq<Entry>, frontier: int, q: Queue, entries: seq<Entry>)
    requires Chain(setup, arrivals, frontier, q, entries) && frontier + 1 <= |arrivals|
    ensures Chain(setup, arrivals, frontier + 1, q, entries)
  {
  }

  lemma {:induction false} ChainLoses(setup: Setup, arrivals: seq<Entry>, frontier: int, q: Queue, left: seq<Entry>, waiting: seq<Entry>)
    requires Chain(setup, arrivals, frontier, q, left + waiting) && waiting != []
    ensures Chain(setup, arrivals, frontier, q, left + waiting[1..])
    ensures (left + [waiting[0]]) + waiting[1..] == left + waiting
  {
    var all, n := left + waiting, |left|;
    var less := left + waiting[1..];
    forall i | 0 <= i < |less| ensures less[i] == all[if i < n then i else i + 1] {
    }
  }

  lemma {:induction false} ArriveOrdered(setup: Setup, s: State, e: Entry, q: Queue)
    requires Shaped(setup, s) && Ordered(setup, s) && e.id == |s.arrivals| && HasQueue(setup, q)
    ensures var t := s.(arrivals := s.arrivals + [e], window := s.window + [e]);
            Windowed(t) && Chain(setup, t.arrivals, Frontier(t), q, History(setup, t, q))
  {
    var t := s.(arrivals := s.arrivals + [e], window := s.window + [e]);
    assert History(setup, t, q) == History(setup, s, q) && Frontier(t) == Frontier(s);
    ChainFurther(setup, s.arrivals, e, Frontier(s), q, History(setup, s, q));
    WindowGrows(s, e);
  }

  lemma {:induction false} ChainFurther(setup: Setup, arrivals: seq<Entry>, e: Entry, frontier: int, q: Queue, entries: seq<Entry>)
    requires Chain(setup, arrivals, frontier, q, entries)
    ensures Chain(setup, arrivals + [e], frontier, q, entries)
  {
    hide Sort;
    forall i | 0 <= i < |entries| ensures Belongs(setup, arrivals + [e], frontier, q, entries[i]) {
      assert Belongs(setup, arrivals, frontier, q, entries[i]);
    }
  }

  lemma {:induction false} WindowGrows(s: State, e: Entry)
    requires Windowed(s) && e.id == |s.arrivals|
    ensures Windowed(s.(arrivals := s.arrivals + [e], window := s.window + [e]))
  {
    var all, n := s.arrivals + [e], |s.arrivals| - |s.window|;
    assert all[n..] == s.arrivals[n..] + [e];
  }

  /** Processing moves the first packet of the window to the end of the queue it is sorted to. */
  lemma {:induction false} ProcessedHistory(setup: Setup, s: State, banned: bool, q: Queue)
    requires Shaped(setup, s) && s.window != [] && HasQueue(setup, q)
    ensures var t := Processed(setup, s, banned);
            && Shaped(setup, t) && t.arrivals == s.arrivals && t.window == s.window && t.busy
            && (History(setup, t, q) == History(setup, s, q)
                || (Sort(setup.devices, s.window[0].packet).Sorted? && Sort(setup.devices, s.window[0].packet).queue == q
                    && History(setup, t, q) == History(setup, s, q) + [s.window[0]]))
  {
    hide Sort, Takes, Left;
    var e := s.window[0];
    var sorted := Sort(setup.devices, e.packet);
    if !banned && sorted.Sorted? {
      LeftMore(s.written, Written(e, Direct, s.clock), q);
      if !sorted.queue.Direct? && sorted.queue == q {
        assert Left(s.written, q) + (QueueOf(s, q) + [e]) == Left(s.written, q) + QueueOf(s, q) + [e];
      }
      if sorted.queue.Direct? && q.Direct? {
        assert Left(s.written, q) + [] == Left(s.written, q);
        assert Left(s.written, q) + [e] + [] == Left(s.written, q) + [e];
      }
    }
  }

  lemma {:induction false} ProcessOrdered(setup: Setup, s: State, banned: bool, q: Queue)
    requires Shaped(setup, s) && Ordered(setup, s) && s.window != [] && !s.busy && HasQueue(setup, q)
    ensures var t := Processed(setup, s, banned);
            Shaped(setup, t) && Windowed(t) && Chain(setup, t.arrivals, Frontier(t), q, History(setup, t, q))
  {
    hide Processed, Sort;
    var t, e, h := Processed(setup, s, banned), s.window[0], History(setup, s, q);
    ProcessedHistory(setup, s, banned, q);
    assert e == s.arrivals[Frontier(s)] && Frontier(t) == Frontier(s) + 1;
    assert Chain(setup, s.arrivals, Frontier(s), q, h);
    ChainStays(setup, s.arrivals, Frontier(s), q, h);
    if History(setup, t, q) != h { ChainGrows(setup, s.arrivals, Frontier(s), q, h, e); }
  }

  /** Serving a queue moves its first packet out, or loses it. */
  lemma {:induction false} ServedHistory(setup: Setup, s: State, served: Queue, consumed: bool, q: Queue)
    requires Fit(setup) && Shaped(setup, s) && Enabled(setup, s, Serve(served, consumed)) && HasQueue(setup, q)
    ensures var t := Served(setup, s, served, consumed);
            && Shaped(setup, t) && t.arrivals == s.arrivals && t.window == s.window && t.busy == s.busy
            && (History(setup, t, q) == History(setup, s, q)
                || (q == served && History(setup, t, q) == Left(s.written, q) + QueueOf(s, q)[1..])
                || (q == served && History(setup, t, q) == (Left(s.written, q) + [QueueOf(s, q)[0]]) + QueueOf(s, q)[1..]))
  {
    hide Loss, FirstTaking, Takes, Left;
    if consumed { LeftMore(s.written, Written(QueueOf(s, served)[0], served, s.clock), q); }
  }

  lemma {:induction false} ServeOrdered(setup: Setup, s: State, served: Queue, consumed: bool, q: Queue)
    requires Fit(setup) && Shaped(setup, s) && Ordered(setup, s) && Enabled(setup, s, Serve(served, consumed)) && HasQueue(setup, q)
    ensures var t := Served(setup, s, served, consumed);
            Shaped(setup, t) && Windowed(t) && Chain(setup, t.arrivals, Frontier(t), q, History(setup, t, q))
  {
    ServedHistory(setup, s, served, consumed, q);
    assert Chain(setup, s.arrivals, Frontier(s), q, History(setup, s, q));
    if q == served { ChainLoses(setup, s.arrivals, Frontier(s), q, Left(s.written, q), QueueOf(s, q)); }
  }

  lemma {:induction false} PopOrdered(setup: Setup, s: State, q: Queue)
    requires Shaped(setup, s) && Ordered(setup, s) && s.busy && HasQueue(setup, q)
    ensures var t := s.(busy := false, window := s.window[1..]);
            Shaped(setup, t) && Windowed(t) && Chain(setup, t.arrivals, Frontier(t), q, History(setup, t, q))
  {
    var t := s.(busy := false, window := s.window[1..]);
    assert History(setup, t, q) == History(setup, s, q) && Frontier(t) == Frontier(s);
    assert t.window == t.arrivals[|t.arrivals| - |t.window|..];
  }

  lemma {:induction false} TickOrdered(setup: Setup, s: State, now: int, q: Queue)
    requires Shaped(setup, s) && Ordered(setup, s) && HasQueue(setup, q)
    ensures var t := s.(clock := now);
            Shaped(setup, t) && Windowed(t) && Chain(setup, t.arrivals, Frontier(t), q, History(setup, t, q))
  {
    var t := s.(clock := now);
    assert History(setup, t, q) == History(setup, s, q);
  }

  lemma {:induction false} NextOrdered(setup: Setup, s: State, step: Step)
    requires Fit(setup) && Shaped(setup, s) && Ordered(setup, s) && Enabled(setup, s, step) && Shaped(setup, Next(setup, s, step))
    ensures Ordered(setup, Next(setup, s, step))
  {
    var t := Next(setup, s, step);
    forall q | HasQueue(setup, q)
      ensures Windowed(t) && Chain(setup, t.arrivals, Frontier(t), q, History(setup, t, q))
    {
      match step
      case Tick(now) => TickOrdered(setup, s, now, q);
      case Arrive(packet, timestamp, accepted) =>
        if accepted { ArriveOrdered(setup, s, Entry(|s.arrivals|, packet, timestamp), q); }
      case Process(banned) => ProcessOrdered(setup, s, banned, q);
      case Pop => PopOrdered(setup, s, q);
      case Serve(served, consumed) => ServeOrdered(setup, s, served, consumed, q);
    }
    assert HasQueue(setup, Direct);
  }

  // ---- runs ----

  /** The threads and the clock may take these steps one after the other. */
  predicate Legal(setup: Setup, s: State, steps: seq<Step>)
    requires Fit(setup) && |s.fromClients| == |s.toClients| == |setup.devices|
    decreases |steps|
  {
    steps == [] || (Enabled(setup, s, steps[0]) && Legal(setup, Next(setup, s, steps[0]), steps[1..]))
  }

  function After(setup: Setup, s: State, steps: seq<Step>): (t: State)
    requires Fit(setup) && |s.fromClients| == |s.toClients| == |setup.devices| && Legal(setup, s, steps)
    ensures |t.fromClients| == |t.toClients| == |setup.devices|
    decreases |steps|
  {
    if steps == [] then s else After(setup, Next(setup, s, steps[0]), steps[1..])
  }

  ghost predicate Invariant(setup: Setup, s: State)
    requires Fit(setup)
  {
    Shaped(setup, s) && Counted(setup, s) && Timely(setup, s) && Ordered(setup, s)
  }

  lemma {:induction false} StartInvariant(setup: Setup)
    requires Fit(setup)
    ensures Invariant(setup, Start(setup))
  {
    var s := Start(setup);
    TotalEmpty(|setup.devices|);
    assert Dropped(setup.lossParams, 0) == 0;
    forall q | HasQueue(setup, q) ensures Chain(setup, s.arrivals, Frontier(s), q, History(setup, s, q)) {
      assert History(setup, s, q) == [];
    }
  }

  lemma {:induction false} NextInvariant(setup: Setup, s: State, step: Step)
    requires Fit(setup) && Invariant(setup, s) && Enabled(setup, s, step)
    ensures Invariant(setup, Next(setup, s, step))
  {
    NextCounts(setup, s, step);
    NextTimely(setup, s, step);
    NextOrdered(setup, s, step);
  }

  lemma {:induction false} RunInvariant(setup: Setup, s: State, steps: seq<Step>)
    requires Fit(setup) && Invariant(setup, s) && Legal(setup, s, steps)
    ensures Invariant(setup, After(setup, s, steps))
    decreases |steps|
  {
    if steps != [] {
      NextInvariant(setup, s, steps[0]);
      RunInvariant(setup, Next(setup, s, steps[0]), steps[1..]);
    }
  }

  // ---- what has been written ----

  lemma {:induction false} LeftPrefix(written: seq<Written>, q: Queue, i: nat)
    requires i <= |written|
    ensures Left(written[..i], q) <= Left(written, q)
  {
    if i == |written| {
      assert written[..i] == written;
    } else {
      var n := |written| - 1;
      LeftPrefix(written[..n], q, i);
      assert written[..n][..i] == written[..i];
    }
  }

  /** Where a packet stands among those that have left its queue. */
  lemma {:induction false} LeftAt(written: seq<Written>, q: Queue, i: nat)
    requires i < |written| && written[i].queue == q
    ensures var k := |Left(written[..i], q)|;
            k + 1 == |Left(written[..i + 1], q)| <= |Left(written, q)| && Left(written, q)[k] == written[i].entry
  {
    LeftMore(written[..i], written[i], q);
    assert written[..i + 1] == written[..i] + [written[i]];
    LeftPrefix(written, q, i + 1);
  }

  /** No packet is written twice, and the packets from one queue leave in order of arrival. */
  predicate WrittenInOrder(s: State) {
    forall i, j | 0 <= i < j < |s.written| ::
      && s.written[i].entry.id != s.written[j].entry.id
      && (s.written[i].queue == s.written[j].queue ==> s.written[i].entry.id < s.written[j].entry.id)
  }

  lemma {:induction false} SameQueueInOrder(setup: Setup, s: State, i: nat, j: nat)
    requires Shaped(setup, s) && Ordered(setup, s) && i < j < |s.written|
    requires s.written[i].queue == s.written[j].queue && HasQueue(setup, s.written[i].queue)
    ensures s.written[i].entry.id < s.written[j].entry.id
  {
    var q := s.written[i].queue;
    LeftAt(s.written, q, i);
    LeftAt(s.written, q, j);
    LeftPrefix(s.written[..j], q, i + 1);
    assert s.written[..j][..i + 1] == s.written[..i + 1];
    assert Chain(setup, s.arrivals, Frontier(s), q, History(setup, s, q));
    var a, b := |Left(s.written[..i], q)|, |Left(s.written[..j], q)|;
    assert History(setup, s, q)[a] == s.written[i].entry && History(setup, s, q)[b] == s.written[j].entry;
  }

  lemma {:induction false} WrittenBelongs(setup: Setup, s: State, i: nat)
    requires Shaped(setup, s) && Ordered(setup, s) && i < |s.written| && HasQueue(setup, s.written[i].queue)
    ensures Belongs(setup, s.arrivals, Frontier(s), s.written[i].queue, s.written[i].entry)
  {
    var q := s.written[i].queue;
    LeftAt(s.written, q, i);
    assert Chain(setup, s.arrivals, Frontier(s), q, History(setup, s, q));
    assert History(setup, s, q)[|Left(s.written[..i], q)|] == s.written[i].entry;
  }

  /** Only existing queues are written from. */
  predicate WrittenFromQueues(setup: Setup, s: State) {
    forall i | 0 <= i < |s.written| :: HasQueue(setup, s.written[i].queue)
  }

  lemma {:induction false} NextFromQueues(setup: Setup, s: State, step: Step)
    requires Fit(setup) && Shaped(setup, s) && WrittenFromQueues(setup, s) && Enabled(setup, s, step)
    ensures WrittenFromQueues(setup, Next(setup, s, step))
  {
  }

  lemma {:induction false} RunFromQueues(setup: Setup, s: State, steps: seq<Step>)
    requires Fit(setup) && Shaped(setup, s) && WrittenFromQueues(setup, s) && Counted(setup, s) && Legal(setup, s, steps)
    ensures WrittenFromQueues(setup, After(setup, s, steps))
    decreases |steps|
  {
    if steps != [] {
      NextFromQueues(setup, s, steps[0]);
      NextCounts(setup, s, steps[0]);
      RunFromQueues(setup, Next(setup, s, steps[0]), steps[1..]);
    }
  }

  lemma {:induction false} OrderedWrites(setup: Setup, s: State)
    requires Shaped(setup, s) && Ordered(setup, s) && WrittenFromQueues(setup, s)
    ensures WrittenInOrder(s)
  {
    forall i, j | 0 <= i < j < |s.written|
      ensures s.written[i].entry.id != s.written[j].entry.id
      ensures s.written[i].queue == s.written[j].queue ==> s.written[i].entry.id < s.written[j].entry.id
    {
      WrittenBelongs(setup, s, i);
      WrittenBelongs(setup, s, j);
      if s.written[i].queue == s.written[j].queue { SameQueueInOrder(setup, s, i, j); }
    }
  }

  /**
   In every state that any interleaving of the threads and the clock can reach: what was received waits or has been
   processed, the loss function decides how many are lost, nothing is written twice or out of order, and nothing before
   half a round trip has passed.
   */
  lemma {:induction false} EveryRun(setup: Setup, steps: seq<Step>)
    requires Fit(setup) && Legal(setup, Start(setup), steps)
    ensures var s := After(setup, Start(setup), steps);
            Counted(setup, s) && Timely(setup, s) && WrittenInOrder(s)
  {
    StartInvariant(setup);
    RunInvariant(setup, Start(setup), steps);
    RunFromQueues(setup, Start(setup), steps);
    OrderedWrites(setup, After(setup, Start(setup), steps));
  }
}
