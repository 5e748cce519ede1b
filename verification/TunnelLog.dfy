/**
 What a run of the tunnel amounts to, read off the list of steps alone: which packets were queued where, which were taken,
 lost and written, and how the statistics end.
 */
module TunnelLog {
  import opened Devices
  import opened PacketLoss
  import opened Tunnel

  // ---- where packets go ----

  predicate LastOf(devices: seq<Device>, addr: byte, i: nat) {
    i < |devices| && devices[i].hostAddr == addr && forall j | i < j < |devices| :: devices[j].hostAddr != addr
  }

  predicate FirstOf(devices: seq<Device>, addr: byte, i: nat) {
    i < |devices| && devices[i].hostAddr == addr && forall j | 0 <= j < i :: devices[j].hostAddr != addr
  }

  predicate Known(devices: seq<Device>, addr: byte) {
    exists i | 0 <= i < |devices| :: devices[i].hostAddr == addr
  }

  /** The address is that of a device of this kind, the last one that has it. */
  predicate KindOf(devices: seq<Device>, addr: byte, kind: Kind) {
    exists i: nat | i < |devices| :: LastOf(devices, addr, i) && devices[i].kind == kind
  }

  /** A packet from a client goes to the queue of that client, one from a server to the queue of the client it is for. */
  predicate GoesTo(devices: seq<Device>, packet: Packet, q: Queue) {
    match q
    case FromClient(d) => LastOf(devices, packet.src, d) && devices[d].kind.Client? && Known(devices, packet.dst)
    case ToClient(d) => KindOf(devices, packet.src, Server) && LastOf(devices, packet.dst, d) && devices[d].kind.Client?
    case Direct => KindOf(devices, packet.src, Server) && KindOf(devices, packet.dst, Server)
  }

  /** Two devices with one address: the last one is sorted to, but the first one that takes a client's packet gets it. */
  predicate ForDevice(devices: seq<Device>, w: Written, i: nat) {
    if w.queue.FromClient? then FirstOf(devices, w.entry.packet.dst, i) else LastOf(devices, w.entry.packet.dst, i)
  }

  predicate ForKind(devices: seq<Device>, w: Written, kind: Kind) {
    exists i: nat | i < |devices| :: ForDevice(devices, w, i) && devices[i].kind == kind
  }

  // ---- reading the steps ----

  function Front(steps: seq<Step>): seq<Step>
    requires steps != []
  {
    steps[..|steps| - 1]
  }

  function Final(steps: seq<Step>): Step
    requires steps != []
  {
    steps[|steps| - 1]
  }

  /** The time last read. */
  function Now(steps: seq<Step>): int {
    if steps == [] then 0 else if Final(steps).Tick? then Final(steps).now else Now(Front(steps))
  }

  /** The packets taken into the window, numbered. */
  function Arrived(steps: seq<Step>): seq<Entry> {
    if steps == [] then []
    else
      var before := Arrived(Front(steps));
      match Final(steps)
      case Arrive(packet, timestamp, true) => before + [Entry(|before|, packet, timestamp)]
      case _ => before
  }

  function Processes(steps: seq<Step>): nat {
    if steps == [] then 0 else Processes(Front(steps)) + if Final(steps).Process? then 1 else 0
  }

  function Pops(steps: seq<Step>): nat {
    if steps == [] then 0 else Pops(Front(steps)) + if Final(steps).Pop? then 1 else 0
  }

  /** The packet that the next processing is about. */
  function Upcoming(steps: seq<Step>): seq<Entry> {
    var k := Processes(steps);
    if k < |Arrived(steps)| then [Arrived(steps)[k]] else []
  }

  /** The packet that this step lets into a queue, if any. */
  function Admitted(devices: seq<Device>, steps: seq<Step>, q: Queue): seq<Entry>
    requires steps != []
  {
    var next := Upcoming(Front(steps));
    if Final(steps) == Process(false) && next != [] && GoesTo(devices, next[0].packet, q) then next else []
  }

  /** Everything that ever went into a queue, in order. */
  function Queued(devices: seq<Device>, steps: seq<Step>, q: Queue): seq<Entry> {
    if steps == [] then [] else Queued(devices, Front(steps), q) + Admitted(devices, steps, q)
  }

  /** How often a queue was served. */
  function ServedOf(steps: seq<Step>, q: Queue): nat {
    if steps == [] then 0 else ServedOf(Front(steps), q) + if Final(steps) == Serve(q, true) then 1 else 0
  }

  // ---- the packets taken, lost and written ----

  /** A packet taken from a queue, or passed between servers: when, and whether the loss function drops it. */
  datatype Take = Take(entry: Entry, queue: Queue, at: int, lost: bool)

  predicate SameWay(q: Queue, p: Queue) {
    match q
    case FromClient(_) => p.FromClient?
    case ToClient(_) => p.ToClient?
    case Direct => p.Direct?
  }

  /** How many were taken in this direction. */
  function TakenWay(ts: seq<Take>, way: Queue): nat {
    if ts == [] then 0 else TakenWay(ts[..|ts| - 1], way) + if SameWay(way, ts[|ts| - 1].queue) then 1 else 0
  }

  function LostWay(ts: seq<Take>, way: Queue): nat {
    if ts == [] then 0
    else LostWay(ts[..|ts| - 1], way) + if SameWay(way, ts[|ts| - 1].queue) && ts[|ts| - 1].lost then 1 else 0
  }

  /** What one step takes: the packet that comes next in the queue served, or one between servers; each direction counts its own. */
  function TakenBy(setup: Setup, steps: seq<Step>, ts: seq<Take>): seq<Take>
    requires Fit(setup) && steps != []
  {
    var before := Front(steps);
    match Final(steps)
    case Process(false) =>
      var direct := Admitted(setup.devices, steps, Direct);
      if direct == [] then [] else [Take(direct[0], Direct, Now(before), false)]
    case Serve(q, true) =>
      var k := ServedOf(before, q);
      var queued := Queued(setup.devices, before, q);
      if q.Direct? || k >= |queued| then []
      else [Take(queued[k], q, Now(before), Loss(setup.lossParams, TakenWay(ts, q) + 1))]
    case _ => []
  }

  function Taken(setup: Setup, steps: seq<Step>): seq<Take>
    requires Fit(setup)
  {
    if steps == [] then []
    else
      var before := Taken(setup, Front(steps));
      before + TakenBy(setup, steps, before)
  }

  /** Not lost, and of a protocol that can be readdressed. */
  predicate Kept(t: Take) {
    !t.lost && t.entry.packet.rewritable
  }

  function Output(ts: seq<Take>): seq<Written> {
    if ts == [] then []
    else
      var t := ts[|ts| - 1];
      Output(ts[..|ts| - 1]) + if Kept(t) then [Written(t.entry, t.queue, t.at)] else []
  }

  /** How many were neither lost nor of such a protocol. */
  function Unaddressed(ts: seq<Take>): nat {
    if ts == [] then 0
    else Unaddressed(ts[..|ts| - 1]) + if !ts[|ts| - 1].lost && !ts[|ts| - 1].entry.packet.rewritable then 1 else 0
  }

  /** How many written packets are for devices of this kind. */
  function WrittenFor(devices: seq<Device>, written: seq<Written>, kind: Kind): nat {
    if written == [] then 0
    else WrittenFor(devices, written[..|written| - 1], kind) + if ForKind(devices, written[|written| - 1], kind) then 1 else 0
  }

  /** How many packets went into queues from clients, or to clients. */
  function QueuedWay(devices: seq<Device>, steps: seq<Step>, way: Queue): nat {
    if steps == [] then 0
    else
      var next := Upcoming(Front(steps));
      QueuedWay(devices, Front(steps), way)
      + if Final(steps) == Process(false) && next != [] && GoesWay(devices, next[0].packet, way) then 1 else 0
  }

  predicate GoesWay(devices: seq<Device>, packet: Packet, way: Queue) {
    match way
    case FromClient(_) => exists d: nat | d < |devices| :: GoesTo(devices, packet, FromClient(d))
    case ToClient(_) => exists d: nat | d < |devices| :: GoesTo(devices, packet, ToClient(d))
    case Direct => GoesTo(devices, packet, Direct)
  }

  // ---- the state agrees with the log ----

  ghost predicate WindowAgrees(steps: seq<Step>, s: State) {
    && s.clock == Now(steps) && s.arrivals == Arrived(steps)
    && Pops(steps) <= Processes(steps) <= |Arrived(steps)|
    && Processes(steps) == Pops(steps) + (if s.busy then 1 else 0)
    && s.window == Arrived(steps)[Pops(steps)..]
  }

  predicate QueueAgrees(setup: Setup, steps: seq<Step>, s: State, q: Queue)
    requires Shaped(setup, s)
  {
    !q.Direct? && HasQueue(setup, q) ==>
      ServedOf(steps, q) <= |Queued(setup.devices, steps, q)|
      && QueueOf(s, q) == Queued(setup.devices, steps, q)[ServedOf(steps, q)..]
  }

  predicate CountsAgree(setup: Setup, steps: seq<Step>, s: State)
    requires Fit(setup)
  {
    var ts := Taken(setup, steps);
    && s.recvFromClients == QueuedWay(setup.devices, steps, FromClient(0))
    && s.recvFromServers == QueuedWay(setup.devices, steps, ToClient(0))
    && s.processedFromClients == TakenWay(ts, FromClient(0)) && s.processedFromServers == TakenWay(ts, ToClient(0))
    && s.betweenServers == TakenWay(ts, Direct)
    && s.lostToServers == LostWay(ts, FromClient(0)) && s.lostToClients == LostWay(ts, ToClient(0))
  }

  predicate OutputAgrees(setup: Setup, steps: seq<Step>, s: State)
    requires Fit(setup)
  {
    && s.written == Output(Taken(setup, steps))
    && s.sentToClients == WrittenFor(setup.devices, s.written, Client)
    && s.sentToServers == WrittenFor(setup.devices, s.written, Server)
  }

  /** Everything in the state is what the log says. */
  ghost predicate Agrees(setup: Setup, steps: seq<Step>, s: State)
    requires Fit(setup)
  {
    && Shaped(setup, s) && WindowAgrees(steps, s) && (forall q :: QueueAgrees(setup, steps, s, q))
    && CountsAgree(setup, steps, s) && OutputAgrees(setup, steps, s)
  }

  // ---- sorting ----

  lemma {:induction false} LastWithIs(devices: seq<Device>, addr: byte)
    ensures LastWith(devices, addr).NoDevice? <==> !Known(devices, addr)
    ensures LastWith(devices, addr).Index? ==> LastOf(devices, addr, LastWith(devices, addr).i)
    ensures forall i: nat :: LastOf(devices, addr, i) ==> LastWith(devices, addr) == Index(i)
  {
    if devices != [] {
      var n := |devices| - 1;
      if devices[n].hostAddr != addr {
        LastWithIs(devices[..n], addr);
        forall i: nat | LastOf(devices, addr, i) ensures LastWith(devices, addr) == Index(i) {
          assert LastOf(devices[..n], addr, i);
        }
      }
    }
  }

  /** The code sorts a packet to a queue exactly if it goes there. */
  lemma {:induction false} SortIs(devices: seq<Device>, packet: Packet, q: Queue)
    ensures GoesTo(devices, packet, q) <==> Sort(devices, packet).Sorted? && Sort(devices, packet).queue == q
    ensures Sort(devices, packet).Sorted? ==> LastOf(devices, packet.dst, Sort(devices, packet).dst)
  {
    LastWithIs(devices, packet.src);
    LastWithIs(devices, packet.dst);
  }

  lemma {:induction false} FirstTakingIs(devices: seq<Device>, packet: Packet, from: nat)
    requires from <= |devices| && packet.rewritable && forall j | 0 <= j < from :: devices[j].hostAddr != packet.dst
    ensures FirstTaking(devices, packet, from).Index? <==> Known(devices, packet.dst)
    ensures FirstTaking(devices, packet, from).Index? ==> FirstOf(devices, packet.dst, FirstTaking(devices, packet, from).i)
    decreases |devices| - from
  {
    if from < |devices| && devices[from].hostAddr != packet.dst { FirstTakingIs(devices, packet, from + 1); }
  }

  // ---- one more step ----

  /** What the log of one more step says. */
  lemma {:induction false} LogStep(setup: Setup, steps: seq<Step>, step: Step)
    requires Fit(setup)
    ensures var t := steps + [step];
            && Front(t) == steps && Final(t) == step
            && Now(t) == (if step.Tick? then step.now else Now(steps))
            && Arrived(t) == Arrived(steps)
                             + (if step.Arrive? && step.accepted then [Entry(|Arrived(steps)|, step.packet, step.timestamp)] else [])
            && Processes(t) == Processes(steps) + (if step.Process? then 1 else 0)
            && Pops(t) == Pops(steps) + (if step.Pop? then 1 else 0)
            && Taken(setup, t) == Taken(setup, steps) + TakenBy(setup, t, Taken(setup, steps))
    ensures var t := steps + [step];
            forall q :: Queued(setup.devices, t, q) == Queued(setup.devices, steps, q) + Admitted(setup.devices, t, q)
    ensures forall q :: ServedOf(steps + [step], q) == ServedOf(steps, q) + (if step == Serve(q, true) then 1 else 0)
    ensures var next := Upcoming(steps);
            forall way :: QueuedWay(setup.devices, steps + [step], way)
                          == QueuedWay(setup.devices, steps, way)
                             + (if step == Process(false) && next != [] && GoesWay(setup.devices, next[0].packet, way) then 1 else 0)
  {
    var t := steps + [step];
    assert Front(t) == steps && Final(t) == step;
  }

  /** A step that neither processes nor serves changes nothing but the window and the clock. */
  lemma {:induction false} QuietStep(setup: Setup, steps: seq<Step>, s: State, step: Step)
    requires Fit(setup) && Agrees(setup, steps, s) && Enabled(setup, s, step) && !step.Process? && !(step.Serve? && step.consumed)
    ensures Agrees(setup, steps + [step], Next(setup, s, step))
  {
    hide Queued, ServedOf, Taken, QueuedWay, Now, Arrived, Processes, Pops, Output, WrittenFor, TakenWay, LostWay;
    LogStep(setup, steps, step);
    var t, u := steps + [step], Next(setup, s, step);
    forall q ensures QueueAgrees(setup, t, u, q) {
      assert QueueAgrees(setup, steps, s, q);
      assert Admitted(setup.devices, t, q) == [];
      assert Queued(setup.devices, t, q) == Queued(setup.devices, steps, q);
    }
    assert TakenBy(setup, t, Taken(setup, steps)) == [];
    assert Taken(setup, t) == Taken(setup, steps);
    if step.Arrive? && !step.accepted { assert Arrived(t) == Arrived(steps); }
  }

  /** In a queue there are only packets that go there. */
  lemma {:induction false} QueuedGoes(devices: seq<Device>, steps: seq<Step>, q: Queue, k: nat)
    requires k < |Queued(devices, steps, q)|
    ensures GoesTo(devices, Queued(devices, steps, q)[k].packet, q)
  {
    if k < |Queued(devices, Front(steps), q)| { QueuedGoes(devices, Front(steps), q, k); }
  }

  lemma {:induction false} OneWay(ts: seq<Take>, q: Queue, p: Queue)
    requires SameWay(q, p)
    ensures TakenWay(ts, q) == TakenWay(ts, p) && LostWay(ts, q) == LostWay(ts, p)
  {
    if ts != [] { OneWay(ts[..|ts| - 1], q, p); }
  }

  lemma {:induction false} TakeMore(ts: seq<Take>, t: Take)
    ensures forall way :: TakenWay(ts + [t], way) == TakenWay(ts, way) + (if SameWay(way, t.queue) then 1 else 0)
    ensures forall way :: LostWay(ts + [t], way) == LostWay(ts, way) + (if SameWay(way, t.queue) && t.lost then 1 else 0)
    ensures Output(ts + [t]) == Output(ts) + if Kept(t) then [Written(t.entry, t.queue, t.at)] else []
  {
    assert (ts + [t])[..|ts|] == ts;
  }

  /** A written packet counts for the kind of the one device it is for. */
  lemma {:induction false} WriteMore(devices: seq<Device>, written: seq<Written>, w: Written, i: nat)
    requires i < |devices| && ForDevice(devices, w, i)
    ensures forall kind :: WrittenFor(devices, written + [w], kind)
                           == WrittenFor(devices, written, kind) + (if devices[i].kind == kind then 1 else 0)
  {
    assert (written + [w])[..|written|] == written && (written + [w])[|written|] == w;
    forall kind ensures ForKind(devices, w, kind) <==> devices[i].kind == kind {
      if ForKind(devices, w, kind) {
        var j: nat :| j < |devices| && ForDevice(devices, w, j) && devices[j].kind == kind;
        assert j == i;
      }
    }
  }

  // ---- processing ----

  lemma {:induction false} UpcomingIs(steps: seq<Step>, s: State)
    requires WindowAgrees(steps, s) && !s.busy && s.window != []
    ensures Upcoming(steps) == [s.window[0]]
  {
  }

  lemma {:induction false} GoesWayIs(devices: seq<Device>, packet: Packet, way: Queue)
    ensures GoesWay(devices, packet, way)
       <==> Sort(devices, packet).Sorted? && SameWay(way, Sort(devices, packet).queue)
  {
    var sorted := Sort(devices, packet);
    if sorted.Sorted? { SortIs(devices, packet, sorted.queue); }
    forall d: nat ensures GoesTo(devices, packet, FromClient(d)) <==> sorted.Sorted? && sorted.queue == FromClient(d) {
      SortIs(devices, packet, FromClient(d));
    }
    forall d: nat ensures GoesTo(devices, packet, ToClient(d)) <==> sorted.Sorted? && sorted.queue == ToClient(d) {
      SortIs(devices, packet, ToClient(d));
    }
    SortIs(devices, packet, Direct);
  }

  lemma {:induction false} ProcessWindow(setup: Setup, steps: seq<Step>, s: State, banned: bool)
    requires Fit(setup) && Agrees(setup, steps, s) && Enabled(setup, s, Process(banned))
    ensures WindowAgrees(steps + [Process(banned)], Processed(setup, s, banned)) && Shaped(setup, Processed(setup, s, banned))
  {
    hide Now, Arrived, Processes, Pops, Queued, Taken, QueuedWay, Processed, Output;
    LogStep(setup, steps, Process(banned));
    ProcessedWindow(setup, s, banned);
  }

  lemma {:induction false} ProcessedWindow(setup: Setup, s: State, banned: bool)
    requires s.window != [] && |s.fromClients| == |s.toClients| == |setup.devices|
    ensures var t := Processed(setup, s, banned);
            && t.busy && t.clock == s.clock && t.arrivals == s.arrivals && t.window == s.window
            && |t.fromClients| == |t.toClients| == |setup.devices|
  {
    hide Sort, Takes;
  }

  lemma {:induction false} ProcessQueue(setup: Setup, steps: seq<Step>, s: State, banned: bool, q: Queue)
    requires Fit(setup) && Agrees(setup, steps, s) && Enabled(setup, s, Process(banned))
    requires Shaped(setup, Processed(setup, s, banned))
    ensures QueueAgrees(setup, steps + [Process(banned)], Processed(setup, s, banned), q)
  {
    hide Now, Arrived, Processes, Pops, Queued, ServedOf, Taken, QueuedWay, Sort, GoesTo, Output;
    LogStep(setup, steps, Process(banned));
    UpcomingIs(steps, s);
    SortIs(setup.devices, s.window[0].packet, q);
    assert QueueAgrees(setup, steps, s, q);
  }

  /** What processing does to the statistics and the output. */
  lemma {:induction false} ProcessCounts(setup: Setup, steps: seq<Step>, s: State, banned: bool)
    requires Fit(setup) && Agrees(setup, steps, s) && Enabled(setup, s, Process(banned))
    ensures CountsAgree(setup, steps + [Process(banned)], Processed(setup, s, banned))
    ensures OutputAgrees(setup, steps + [Process(banned)], Processed(setup, s, banned))
  {
    hide Now, Arrived, Processes, Pops, Queued, ServedOf, Taken, QueuedWay, Sort, GoesTo, GoesWay, TakenWay, LostWay, Output, WrittenFor;
    var t, e, ts := steps + [Process(banned)], s.window[0], Taken(setup, steps);
    LogStep(setup, steps, Process(banned));
    UpcomingIs(steps, s);
    SortIs(setup.devices, e.packet, Direct);
    GoesWayIs(setup.devices, e.packet, FromClient(0));
    GoesWayIs(setup.devices, e.packet, ToClient(0));
    var sorted := Sort(setup.devices, e.packet);
    if !banned && sorted.Sorted? && sorted.queue.Direct? {
      assert TakenBy(setup, t, ts) == [Take(e, Direct, s.clock, false)];
      TakeMore(ts, Take(e, Direct, s.clock, false));
      var w := Written(e, Direct, s.clock);
      DirectServer(setup.devices, w, sorted.dst);
      WriteMore(setup.devices, s.written, w, sorted.dst);
    } else {
      assert TakenBy(setup, t, ts) == [] && ts + [] == ts;
    }
  }

  lemma {:induction false} DirectServer(devices: seq<Device>, w: Written, i: nat)
    requires w.queue == Direct && GoesTo(devices, w.entry.packet, Direct) && LastOf(devices, w.entry.packet.dst, i)
    ensures ForDevice(devices, w, i) && devices[i].kind == Server && devices[i].hostAddr == w.entry.packet.dst
  {
    var j: nat :| j < |devices| && LastOf(devices, w.entry.packet.dst, j) && devices[j].kind == Server;
    assert j == i;
  }

  // ---- serving ----

  lemma {:induction false} ServedQueue(setup: Setup, s: State, served: Queue, q: Queue)
    requires Fit(setup) && Shaped(setup, s) && Enabled(setup, s, Serve(served, true)) && !q.Direct? && HasQueue(setup, q)
    ensures Shaped(setup, Served(setup, s, served, true))
    ensures QueueOf(Served(setup, s, served, true), q) == if q == served then QueueOf(s, q)[1..] else QueueOf(s, q)
  {
    hide Loss, FirstTaking, Takes;
  }

  lemma {:induction false} ServeQueue(setup: Setup, steps: seq<Step>, s: State, served: Queue, q: Queue)
    requires Fit(setup) && Agrees(setup, steps, s) && Enabled(setup, s, Serve(served, true))
    requires Shaped(setup, Served(setup, s, served, true))
    ensures QueueAgrees(setup, steps + [Serve(served, true)], Served(setup, s, served, true), q)
  {
    hide Now, Arrived, Processes, Pops, Queued, ServedOf, Taken, QueuedWay, Output, Served, WindowAgrees, CountsAgree, OutputAgrees;
    LogStep(setup, steps, Serve(served, true));
    if !q.Direct? && HasQueue(setup, q) { ServedQueue(setup, s, served, q); }
    assert QueueAgrees(setup, steps, s, q) && QueueAgrees(setup, steps, s, served);
  }

  lemma {:induction false} ServeWindow(setup: Setup, steps: seq<Step>, s: State, q: Queue)
    requires Fit(setup) && Agrees(setup, steps, s) && Enabled(setup, s, Serve(q, true))
    ensures WindowAgrees(steps + [Serve(q, true)], Served(setup, s, q, true)) && Shaped(setup, Served(setup, s, q, true))
  {
    hide Now, Arrived, Processes, Pops, Queued, Taken, QueuedWay, FirstTaking, Loss, Output, Takes;
    LogStep(setup, steps, Serve(q, true));
  }

  /** What the log says is taken is the first packet of the queue, under the number that the code gives it. */
  lemma {:induction false} ServeTakes(setup: Setup, steps: seq<Step>, s: State, q: Queue)
    requires Fit(setup) && Agrees(setup, steps, s) && Enabled(setup, s, Serve(q, true))
    ensures var n := if q.FromClient? then s.processedFromClients else s.processedFromServers;
            TakenBy(setup, steps + [Serve(q, true)], Taken(setup, steps))
            == [Take(QueueOf(s, q)[0], q, s.clock, Loss(setup.lossParams, n + 1))]
    ensures GoesTo(setup.devices, QueueOf(s, q)[0].packet, q)
  {
    hide Now, Arrived, Processes, Pops, Queued, ServedOf, Taken, QueuedWay, GoesTo, Loss, Output;
    LogStep(setup, steps, Serve(q, true));
    assert QueueAgrees(setup, steps, s, q);
    OneWay(Taken(setup, steps), q, if q.FromClient? then FromClient(0) else ToClient(0));
    QueuedGoes(setup.devices, steps, q, ServedOf(steps, q));
  }

  /** The device that a packet from a queue is delivered to, if it can be readdressed. */
  function Destination(setup: Setup, e: Entry, q: Queue): (r: MaybeDevice)
    ensures r.Index? && HasQueue(setup, q) ==> r.i < |setup.devices|
  {
    if q.FromClient? then FirstTaking(setup.devices, e.packet, 0) else if q.ToClient? then Index(q.device) else NoDevice
  }

  lemma {:induction false} DestinationIs(setup: Setup, w: Written)
    requires GoesTo(setup.devices, w.entry.packet, w.queue) && !w.queue.Direct? && w.entry.packet.rewritable
    ensures var to := Destination(setup, w.entry, w.queue);
            && to.Index? && to.i < |setup.devices| && ForDevice(setup.devices, w, to.i)
            && Takes(setup.devices[to.i], w.entry.packet)
  {
    FirstTakingIs(setup.devices, w.entry.packet, 0);
  }

  lemma {:induction false} ServeCounts(setup: Setup, steps: seq<Step>, s: State, q: Queue)
    requires Fit(setup) && Agrees(setup, steps, s) && Enabled(setup, s, Serve(q, true))
    ensures CountsAgree(setup, steps + [Serve(q, true)], Served(setup, s, q, true))
    ensures OutputAgrees(setup, steps + [Serve(q, true)], Served(setup, s, q, true))
  {
    hide Now, Arrived, Processes, Pops, Queued, ServedOf, Taken, QueuedWay, FirstTaking, GoesTo, Loss, TakenWay, LostWay, Output, WrittenFor, TakenBy;
    var ts, e := Taken(setup, steps), QueueOf(s, q)[0];
    LogStep(setup, steps, Serve(q, true));
    ServeTakes(setup, steps, s, q);
    var n := if q.FromClient? then s.processedFromClients else s.processedFromServers;
    TakeMore(ts, Take(e, q, s.clock, Loss(setup.lossParams, n + 1)));
    if e.packet.rewritable {
      var w := Written(e, q, s.clock);
      DestinationIs(setup, w);
      WriteMore(setup.devices, s.written, w, Destination(setup, e, q).i);
    }
  }

  // ---- every run ----

  lemma {:induction false} NextAgrees(setup: Setup, steps: seq<Step>, s: State, step: Step)
    requires Fit(setup) && Agrees(setup, steps, s) && Enabled(setup, s, step)
    ensures Agrees(setup, steps + [step], Next(setup, s, step))
  {
    hide WindowAgrees, QueueAgrees, CountsAgree, OutputAgrees, Processed, Served;
    match step
    case Process(banned) =>
      ProcessWindow(setup, steps, s, banned);
      forall q ensures QueueAgrees(setup, steps + [step], Processed(setup, s, banned), q) {
        ProcessQueue(setup, steps, s, banned, q);
      }
      ProcessCounts(setup, steps, s, banned);
    case Serve(q, consumed) =>
      if consumed {
        ServeWindow(setup, steps, s, q);
        forall p ensures QueueAgrees(setup, steps + [step], Served(setup, s, q, true), p) {
          ServeQueue(setup, steps, s, q, p);
        }
        ServeCounts(setup, steps, s, q);
      } else {
        QuietStep(setup, steps, s, step);
      }
    case _ => QuietStep(setup, steps, s, step);
  }

  lemma {:induction false} AfterFront(setup: Setup, s: State, steps: seq<Step>)
    requires Fit(setup) && |s.fromClients| == |s.toClients| == |setup.devices| && Legal(setup, s, steps) && steps != []
    ensures Legal(setup, s, Front(steps)) && Enabled(setup, After(setup, s, Front(steps)), Final(steps))
    ensures After(setup, s, steps) == Next(setup, After(setup, s, Front(steps)), Final(steps))
    decreases |steps|
  {
    hide Next, Enabled;
    var t := Next(setup, s, steps[0]);
    if |steps| == 1 {
      assert steps[1..] == [] && Front(steps) == [];
    } else {
      AfterFront(setup, t, steps[1..]);
      assert Front(steps)[1..] == Front(steps[1..]) && Front(steps)[0] == steps[0];
    }
  }

  lemma {:induction false} StartAgrees(setup: Setup)
    requires Fit(setup)
    ensures Agrees(setup, [], Start(setup))
  {
  }

  /** Whatever the threads and the clock do, the state is what the list of their steps says. */
  lemma {:induction false} RunAgrees(setup: Setup, steps: seq<Step>)
    requires Fit(setup) && Legal(setup, Start(setup), steps)
    ensures Agrees(setup, steps, After(setup, Start(setup), steps))
    decreases |steps|
  {
    hide Agrees, Next, Enabled, Start;
    if steps == [] {
      StartAgrees(setup);
    } else {
      AfterFront(setup, Start(setup), steps);
      RunAgrees(setup, Front(steps));
      NextAgrees(setup, Front(steps), After(setup, Start(setup), Front(steps)), Final(steps));
      assert Front(steps) + [Final(steps)] == steps;
    }
  }

  // ---- what a run delivers ----

  /** Every packet taken is written, lost, or of a protocol that cannot be readdressed. */
  lemma {:induction false} Conservation(ts: seq<Take>)
    ensures |Output(ts)| + LostWay(ts, FromClient(0)) + LostWay(ts, ToClient(0)) + LostWay(ts, Direct) + Unaddressed(ts) == |ts|
    ensures TakenWay(ts, FromClient(0)) + TakenWay(ts, ToClient(0)) + TakenWay(ts, Direct) == |ts|
  {
    if ts != [] { Conservation(ts[..|ts| - 1]); }
  }

  /** The packets of each direction are numbered as they are taken, and the loss function decides by the number. */
  lemma {:induction false} LostByNumber(setup: Setup, steps: seq<Step>, i: nat)
    requires Fit(setup) && i < |Taken(setup, steps)|
    ensures var ts := Taken(setup, steps);
            ts[i].lost <==> !ts[i].queue.Direct? && Loss(setup.lossParams, TakenWay(ts[..i], ts[i].queue) + 1)
  {
    hide Loss;
    var before := Taken(setup, Front(steps));
    var ts := Taken(setup, steps);
    assert ts == before + TakenBy(setup, steps, before);
    if i < |before| {
      LostByNumber(setup, Front(steps), i);
      assert ts[..i] == before[..i];
    } else {
      assert ts[..i] == before;
    }
  }

  lemma {:induction false} DirectKept(setup: Setup, steps: seq<Step>, n: nat)
    requires Fit(setup) && n <= |Taken(setup, steps)|
    ensures LostWay(Taken(setup, steps)[..n], Direct) == 0
  {
    if n > 0 {
      var ts := Taken(setup, steps);
      DirectKept(setup, steps, n - 1);
      LostByNumber(setup, steps, n - 1);
      assert ts[..n][..n - 1] == ts[..n - 1];
    }
  }

  /** The written packet that a kept one becomes. */
  function AsWritten(t: Take): Written {
    Written(t.entry, t.queue, t.at)
  }

  lemma {:induction false} KeptIsOutput(ts: seq<Take>, i: nat)
    requires i < |ts| && Kept(ts[i])
    ensures AsWritten(ts[i]) in Output(ts)
  {
    if i < |ts| - 1 { KeptIsOutput(ts[..|ts| - 1], i); }
  }

  lemma {:induction false} OutputIsKept(ts: seq<Take>, j: nat) returns (i: nat)
    requires j < |Output(ts)|
    ensures i < |ts| && Kept(ts[i]) && AsWritten(ts[i]) == Output(ts)[j]
  {
    var front := ts[..|ts| - 1];
    if j < |Output(front)| {
      i := OutputIsKept(front, j);
    } else {
      i := |ts| - 1;
    }
  }

  /** The packet of this number is written exactly once, at this time and from this queue. */
  ghost predicate WrittenOnce(written: seq<Written>, w: Written) {
    exists j | 0 <= j < |written| :: written[j] == w && forall k | 0 <= k < |written| && k != j :: written[k].entry.id != w.entry.id
  }

  /** What was taken and kept is written, once and from its queue, and nothing else is. */
  ghost predicate DeliversKept(ts: seq<Take>, written: seq<Written>) {
    && (forall i | 0 <= i < |ts| && Kept(ts[i]) :: WrittenOnce(written, AsWritten(ts[i])))
    && forall j | 0 <= j < |written| :: WasKept(ts, written[j])
  }

  ghost predicate WasKept(ts: seq<Take>, w: Written) {
    exists i | 0 <= i < |ts| :: Kept(ts[i]) && AsWritten(ts[i]) == w
  }

  lemma {:induction false} Delivered(ts: seq<Take>, s: State)
    requires s.written == Output(ts) && WrittenInOrder(s)
    ensures DeliversKept(ts, s.written)
  {
    forall i | 0 <= i < |ts| && Kept(ts[i]) ensures WrittenOnce(s.written, AsWritten(ts[i])) {
      KeptIsOutput(ts, i);
      var j :| 0 <= j < |s.written| && s.written[j] == AsWritten(ts[i]);
      forall k | 0 <= k < |s.written| && k != j ensures s.written[k].entry.id != s.written[j].entry.id {
        if k < j { assert s.written[k].entry.id != s.written[j].entry.id; }
      }
    }
    forall j | 0 <= j < |s.written| ensures WasKept(ts, s.written[j]) {
      var i := OutputIsKept(ts, j);
      assert Kept(ts[i]) && AsWritten(ts[i]) == s.written[j];
    }
  }

  /** Nothing received is unaccounted for: taken packets are written, lost, or not TCP or UDP. */
  predicate Accounted(setup: Setup, steps: seq<Step>, s: State)
    requires Fit(setup)
  {
    |s.written| + s.lostToServers + s.lostToClients + Unaddressed(Taken(setup, steps))
    == s.processedFromClients + s.processedFromServers + s.betweenServers
  }

  /**
   Every run delivers: every packet taken from a queue or passed between servers that is not lost and is TCP or UDP is
   written exactly once, nothing else is, and the statistics count it for the kind of the device it is for.
   */
  lemma {:induction false} EveryRunDelivers(setup: Setup, steps: seq<Step>)
    requires Fit(setup) && Legal(setup, Start(setup), steps)
    ensures var s := After(setup, Start(setup), steps);
            && Agrees(setup, steps, s) && Accounted(setup, steps, s) && DeliversKept(Taken(setup, steps), s.written)
            && s.sentToClients == WrittenFor(setup.devices, s.written, Client)
            && s.sentToServers == WrittenFor(setup.devices, s.written, Server)
  {
    hide Start, After, Legal, Counted, Timely;
    var ts := Taken(setup, steps);
    RunAgrees(setup, steps);
    EveryRun(setup, steps);
    Conservation(ts);
    DirectKept(setup, steps, |ts|);
    assert ts[..|ts|] == ts;
    Delivered(ts, After(setup, Start(setup), steps));
  }
}
