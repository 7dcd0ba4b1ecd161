/** The TCP scanner as it is built: a table of slots that own descriptors, an epoll instance that reports slots, and
    counters, updated in place.  Every method is proved against the abstract scanner; `trace` records the steps
    taken. */
module TcpScanners {
  import opened Words
  import opened Clock
  import opened Icmp
  import opened Ipv4
  import opened ScanModel
  import opened Expiry
  import opened ProbeTable
  import opened ScanLinks
  import opened TcpRuns
  import opened Kernels
  import opened TcpLinks

  class TcpScanner {
    const cfg: TcpConfig
    const notify: bool
    const probeTable: array<TcpProbe>
    const kernel: Kernel

    var notified: seq<TcpHostResult>

    // The locals of a run that its steps update by reference.
    var nextHostIdx: nat
    var activeProbes: nat
    var hostsFound: nat
    var scanResults: seq<TcpHostResult>

    ghost var trace: seq<Event>

    /** The slot of each host, or -1. */
    ghost var index: seq<int>

    constructor (base: U32, total: nat, net: NetworkInterface, port: U16, maxProbes: nat, timeoutMs: U32,
                 batchSize: nat, notify: bool, kernel: Kernel)
      requires Scannable(base, total)
      requires kernel.sockets == Sockets(kernel.foreign, map[], map[]) && kernel.opens == kernel.closes
      ensures Shape() && Idle() && this.notify == notify && this.kernel == kernel && fresh(probeTable)
      ensures cfg == TcpConfig(base, total, net, port, Min(maxProbes, total), timeoutMs,
                               SafeBatchSize(batchSize, total))
      ensures cfg.cap <= maxProbes && cfg.cap <= total && (cfg.cap == maxProbes || cfg.cap == total)
      ensures cfg.batch <= batchSize && cfg.batch <= total && (cfg.batch == batchSize || cfg.batch == total)
      ensures maxProbes > 0 && batchSize > 0 ==> CanProgress(cfg)
    {
      var c := TcpConfig(base, total, net, port, Min(maxProbes, total), timeoutMs, SafeBatchSize(batchSize, total));
      cfg := c;
      this.notify := notify;
      this.kernel := kernel;
      probeTable := new TcpProbe[c.cap](_ => EMPTY_PROBE);
      nextHostIdx, activeProbes, hostsFound := 0, 0, 0;
      scanResults, notified := [], [];
      trace, index := [], [];
    }

    ghost predicate Shape() {
      ValidConfig(cfg) && probeTable.Length == cfg.cap
    }

    /** No connection is open, and every one that was opened has been closed. */
    ghost predicate Idle()
      reads probeTable, kernel
    {
      && (forall s :: 0 <= s < probeTable.Length ==> !probeTable[s].active)
      && kernel.sockets == Sockets(kernel.foreign, map[], map[]) && kernel.opens == kernel.closes
    }

    /** The abstract state reached so far. */
    ghost function Model(): State
      reads `trace
    {
      ApplyAll(START, trace)
    }

    /** The fields stand for the abstract state, and every connection that was opened is closed or in a slot. */
    ghost predicate TableOk()
      reads `trace, `nextHostIdx, `activeProbes, `index, probeTable, kernel
    {
      && Tables(cfg, trace, nextHostIdx, activeProbes, probeTable[..], index, kernel.foreign, kernel.sockets)
      && kernel.opens == kernel.closes + activeProbes
    }

    /** What holds of the kernel's resources in every state: the scan's open descriptors are the sockets of the active
        slots, all different; a descriptor is registered with a slot exactly when it is that slot's socket; and as many
        have been closed as opened, less the active ones. */
    lemma ResourcesExact()
      requires Shape() && TableOk()
      ensures kernel.sockets.open - kernel.foreign
              == set s: nat | s < cfg.cap && probeTable[s].active && probeTable[s].sock >= 0 :: probeTable[s].sock
      ensures forall s, s' :: 0 <= s < s' < cfg.cap && probeTable[s].active && probeTable[s'].active ==>
                probeTable[s].sock != probeTable[s'].sock && probeTable[s].destIp != probeTable[s'].destIp
      ensures forall fd, s :: fd in kernel.sockets.epoll && kernel.sockets.epoll[fd] == s <==>
                0 <= s < cfg.cap && probeTable[s].active && fd >= 0 && probeTable[s].sock == fd
      ensures activeProbes == CountActive(Plain(probeTable[..]))
      ensures kernel.opens == kernel.closes + activeProbes
    {
      WiredExactly(probeTable[..], kernel.foreign, kernel.sockets);
    }

    ghost predicate ResultsOk()
      reads `trace, `scanResults, `hostsFound, `notified
    {
      && Named(cfg.base, scanResults, Model().found)
      && hostsFound == |scanResults|
      && notified == if notify then scanResults else []
    }

    // ----- Starting connections -----

    /** The first free slot, or -1 when every slot is active. */
    method FindFreeSlot() returns (slot: int)
      ensures slot == -1 ==> forall s :: 0 <= s < probeTable.Length ==> probeTable[s].active
      ensures slot != -1 ==> 0 <= slot < probeTable.Length && !probeTable[slot].active
                             && forall s :: 0 <= s < slot ==> probeTable[s].active
    {
      slot := -1;
      for i := 0 to probeTable.Length
        invariant slot == -1 && forall s :: 0 <= s < i ==> probeTable[s].active
      {
        if !probeTable[i].active {
          slot := i;
          break;
        }
      }
    }

    /** Opens, connects and registers a socket for a slot.  If any step fails, the socket is closed again and the kernel
        is as it was. */
    method OpenSocket(slot: nat, targetIp: U32, a: Attempt) returns (sock: int)
      requires Wired(probeTable[..], kernel.foreign, kernel.sockets) && targetIp !in kernel.sockets.conn
      modifies kernel
      ensures sock >= 0 <==> a.socket.Some? && a.nonBlocking && a.connected && a.registered
      ensures sock >= 0 ==>
                && sock !in old(kernel.sockets.open)
                && kernel.sockets
                   == Registering(Connecting(Opening(old(kernel.sockets), sock), targetIp, sock), sock, slot)
      ensures sock < 0 ==> kernel.sockets == old(kernel.sockets)
      ensures kernel.opens - kernel.closes == old(kernel.opens - kernel.closes) + if sock >= 0 then 1 else 0
    {
      ghost var k := kernel.sockets;
      sock := kernel.Socket(a.socket);
      if sock < 0 {
        return;
      }
      Abandoned(probeTable[..], kernel.foreign, k, sock, targetIp);
      if !a.nonBlocking {
        kernel.Close(sock);
        return -1;
      }
      var res := kernel.Connect(sock, targetIp, a.connected);
      if !res {
        kernel.Close(sock);
        return -1;
      }
      var added := kernel.EpollAdd(sock, slot, a.registered);
      if !added {
        kernel.Close(sock);
        return -1;
      }
    }

    /** Moves the cursor over a host without a connection. */
    method PassOver(ghost reason: Reason)
      requires Shape() && TableOk() && nextHostIdx < cfg.total && reason != AlreadyFound
      modifies `trace, `nextHostIdx
      ensures TableOk() && nextHostIdx == old(nextHostIdx) + 1
      ensures trace == old(trace) + [Skip(old(nextHostIdx), reason)]
    {
      TablesPass(cfg, trace, nextHostIdx, activeProbes, probeTable[..], index, kernel.foreign, kernel.sockets, reason);
      trace := trace + [Skip(nextHostIdx, reason)];
      nextHostIdx := nextHostIdx + 1;
    }

    /** Puts an open connection to the host at the cursor in a slot. */
    method Occupy(slot: nat, sock: int, targetIp: U32, now: Time, ghost k: Sockets)
      requires Shape() && slot < cfg.cap && !probeTable[slot].active
      requires nextHostIdx < cfg.total && activeProbes < cfg.cap
      requires Tables(cfg, trace, nextHostIdx, activeProbes, probeTable[..], index, kernel.foreign, k)
      requires targetIp == cfg.base + nextHostIdx && sock >= 0 && sock !in k.open && targetIp !in k.conn
      requires kernel.sockets == Registering(Connecting(Opening(k, sock), targetIp, sock), sock, slot)
      requires kernel.opens == kernel.closes + activeProbes + 1
      modifies probeTable, `activeProbes, `nextHostIdx, `trace, `index
      ensures TableOk() && nextHostIdx == old(nextHostIdx) + 1 && activeProbes == old(activeProbes) + 1
      ensures trace == old(trace) + [Launch(old(nextHostIdx), Nanos(now))]
    {
      ghost var slots, launch := probeTable[..], Launch(nextHostIdx, Nanos(now));
      var probe := TcpProbe(true, sock, targetIp, now);
      TablesOpen(cfg, trace, nextHostIdx, activeProbes, slots, index, kernel.foreign, k, sock, slot, probe);
      probeTable[slot] := probe;
      assert probeTable[..] == slots[slot := probe];
      index := index[nextHostIdx := slot];
      nextHostIdx := nextHostIdx + 1;
      activeProbes := activeProbes + 1;
      trace := trace + [launch];
    }

    /** The address of the host at the cursor, and whether it is the network or broadcast address of the local
        subnet. */
    method Target() returns (targetIp: U32, isEdge: bool)
      requires Shape() && nextHostIdx < cfg.total
      ensures targetIp == cfg.base + nextHostIdx && isEdge == LocalSkip(cfg.net, cfg.base, nextHostIdx)
    {
      HostIndexOf(cfg.base, cfg.total, nextHostIdx);
      targetIp := HostAddress(cfg.base, nextHostIdx);
      isEdge := cfg.net.isLocal && (targetIp == cfg.net.networkIp || targetIp == cfg.net.broadcastIp);
    }

    /** Tries to connect to the host at the cursor. */
    method TryHost(slot: nat, targetIp: U32, a: Attempt)
      requires Shape() && TableOk() && nextHostIdx < cfg.total && activeProbes < cfg.cap
      requires slot < cfg.cap && !probeTable[slot].active && targetIp == cfg.base + nextHostIdx
      requires !LocalSkip(cfg.net, cfg.base, nextHostIdx)
      modifies probeTable, kernel, `activeProbes, `nextHostIdx, `trace, `index
      ensures TableOk() && nextHostIdx == old(nextHostIdx) + 1
      ensures var e := Try(cfg, old(nextHostIdx), a);
        trace == old(trace) + [e] && activeProbes == old(activeProbes) + if e.Launch? then 1 else 0
    {
      NewPeer(cfg, trace, nextHostIdx, activeProbes, probeTable[..], index, kernel.foreign, kernel.sockets, targetIp);
      ghost var k := kernel.sockets;
      var sock := OpenSocket(slot, targetIp, a);
      if sock < 0 {
        PassOver(StartFailed);
        return;
      }
      Occupy(slot, sock, targetIp, a.at, k);
    }

    /** Passes the host at the cursor: skips it or tries to connect to it, once.  A slot is always found. */
    method InitiateSingleConnection(a: Attempt) returns (ok: bool, tried: bool)
      requires Shape() && TableOk() && nextHostIdx < cfg.total && activeProbes < cfg.cap
      modifies probeTable, kernel, `activeProbes, `nextHostIdx, `trace, `index
      ensures ok && TableOk() && nextHostIdx == old(nextHostIdx) + 1
      ensures tried <==> !LocalSkip(cfg.net, cfg.base, old(nextHostIdx))
      ensures var e := Try(cfg, old(nextHostIdx), a);
        trace == old(trace) + [e] && activeProbes == old(activeProbes) + if e.Launch? then 1 else 0
    {
      var targetIp, isEdge := Target();
      if isEdge {
        PassOver(LocalAddress);
        return true, false;
      }
      TablesFree(cfg, trace, nextHostIdx, activeProbes, probeTable[..], index, kernel.foreign, kernel.sockets);
      var slot := FindFreeSlot();
      if slot == -1 {
        return false, true;
      }
      TryHost(slot, targetIp, a);
      return true, true;
    }

    /** One turn of the loop below: passes one host with the attempt the script has for it. */
    method InitiateNext(attempts: seq<Attempt>, k: nat, ghost all: seq<Event>, ghost room: nat)
      returns (ok: bool, k': nat)
      requires Shape() && TableOk() && nextHostIdx < cfg.total && activeProbes < cfg.cap && room > 0 && k <= |attempts|
      requires Planned(cfg, all, trace, nextHostIdx, activeProbes, attempts, k, room)
      modifies probeTable, kernel, `activeProbes, `nextHostIdx, `trace, `index
      ensures ok && TableOk() && nextHostIdx == old(nextHostIdx) + 1 && k' <= |attempts|
      ensures Planned(cfg, all, trace, nextHostIdx, activeProbes, attempts, k', room - 1)
    {
      ghost var tr', active', next := PlanStep(cfg, all, trace, nextHostIdx, activeProbes, attempts, k, room);
      var tried;
      ok, tried := InitiateSingleConnection(if k < |attempts| then attempts[k] else NO_SOCKET);
      k' := if tried && k < |attempts| then k + 1 else k;
      assert trace == tr' && activeProbes == active' && k' == next;
    }

    /** Starts a batch: exactly the steps of the abstract scanner. */
    method InitiateConnections(attempts: seq<Attempt>)
      requires Shape() && TableOk()
      modifies probeTable, kernel, `activeProbes, `nextHostIdx, `trace, `index
      ensures TableOk()
      ensures trace == old(trace) + Initiate(cfg, old(nextHostIdx), old(activeProbes), attempts, cfg.batch)
    {
      var initiated: nat, k: nat := 0, 0;
      ghost var room, all := cfg.batch, trace + Initiate(cfg, nextHostIdx, activeProbes, attempts, cfg.batch);
      PlanStarts(cfg, all, trace, nextHostIdx, activeProbes, attempts);
      while nextHostIdx < cfg.total && activeProbes < cfg.cap && initiated < cfg.batch
        invariant TableOk() && k <= |attempts| && initiated + room == cfg.batch
        invariant Planned(cfg, all, trace, nextHostIdx, activeProbes, attempts, k, room)
        decreases room
      {
        var before := nextHostIdx;
        var ok;
        ok, k := InitiateNext(attempts, k, all, room);
        room := room - 1;
        if !ok {
          break;
        }
        if nextHostIdx > before {
          initiated := initiated + 1;
        }
      }
      PlanDone(cfg, all, trace, nextHostIdx, activeProbes, attempts, k, room);
    }

    // ----- Polling -----

    /** Unregisters and closes the connection of an active slot and frees it. */
    method Shut(slot: nat)
      requires slot < probeTable.Length && activeProbes > 0
      requires var sock := probeTable[slot].sock;
        sock in kernel.sockets.epoll && sock in kernel.sockets.open && sock !in kernel.foreign
      modifies probeTable, kernel, `activeProbes
      ensures var sock := old(probeTable[slot].sock);
        kernel.sockets == Closing(Unregistering(old(kernel.sockets), sock), sock)
      ensures probeTable[..] == Vacated(old(probeTable[..]), slot) && activeProbes == old(activeProbes) - 1
      ensures kernel.opens == old(kernel.opens) && kernel.closes == old(kernel.closes) + 1
    {
      ghost var slots := probeTable[..];
      var probe := probeTable[slot];
      kernel.EpollDel(probe.sock);
      kernel.Close(probe.sock);
      probeTable[slot] := probe.(active := false);
      activeProbes := activeProbes - 1;
      assert probeTable[..] == Vacated(slots, slot);
    }

    /** Closes the connection of a slot, with the step that this is. */
    method CloseSlot(slot: nat, ghost e: Event)
      requires Shape() && TableOk() && slot < probeTable.Length && probeTable[slot].active
      requires (e.Answer? || e.Refuse?) && probeTable[slot].destIp == cfg.base + e.host
      modifies probeTable, kernel, `activeProbes, `trace, `index
      ensures TableOk() && probeTable[..] == Vacated(old(probeTable[..]), slot)
      ensures trace == old(trace) + [e] && Model() == Apply(old(Model()), e) && Distinct(Model().found)
    {
      ghost var slots, foreign, k := probeTable[..], kernel.foreign, kernel.sockets;
      ghost var h := TablesOwner(cfg, trace, nextHostIdx, activeProbes, slots, index, foreign, k, slot);
      TablesClose(cfg, trace, nextHostIdx, activeProbes, slots, index, foreign, k, slot, e);
      Shut(slot);
      index := index[e.host := -1];
      trace := trace + [e];
    }

    predicate HasResult(ip: U32)
      reads `scanResults
    {
      exists i :: 0 <= i < |scanResults| && scanResults[i].ip == ip
    }

    /** Reports an open port.  The host is never in the list already, so the callback and the list always agree. */
    method RecordResult(ip: U32, rtt: nat, ghost h: nat)
      requires ip == cfg.base + h && Model().found != [] && Model().found[|Model().found| - 1] == h
      requires Distinct(Model().found) && Named(cfg.base, scanResults, Model().found[..|Model().found| - 1])
      requires hostsFound == |scanResults| && notified == if notify then scanResults else []
      modifies `scanResults, `hostsFound, `notified
      ensures ResultsOk() && scanResults == old(scanResults) + [TcpHostResult(ip, cfg.port, rtt)]
    {
      var result := TcpHostResult(ip, cfg.port, rtt);
      if notify {
        notified := notified + [result];
      }
      if !HasResult(ip) {
        scanResults := scanResults + [result];
        hostsFound := hostsFound + 1;
      }
    }

    /** The error of the connection in the slot that an event names: the connection that raised it. */
    method ReadError(e: Raised, ghost m: map<nat, int>) returns (error: int)
      requires Shape() && TableOk() && Raises(cfg.base, m, probeTable[..], e)
      ensures error == e.ready.error
    {
      ghost var h := TablesOwner(cfg, trace, nextHostIdx, activeProbes, probeTable[..], index, kernel.foreign,
                                 kernel.sockets, e.data);
      error := kernel.SocketError(probeTable[e.data].sock, e, e.ready.error);
    }

    /** The time since a connection was started, at least 0. */
    method Age(at: Time, sendTime: Time) returns (rtt: nat)
      ensures rtt == RoundTrip(at, Nanos(sendTime))
    {
      var diffNs := Elapsed(at, sendTime);
      ElapsedExact(at, sendTime);
      rtt := if diffNs < 0 then 0 else diffNs;
    }

    /** Reports the connection that an event closed, if its socket has no error; `found` are the hosts found before. */
    method ReportClosed(e: Raised, probe: TcpProbe, sockErr: int, ghost m: map<nat, int>, ghost found: seq<nat>)
      requires sockErr == e.ready.error && probe.destIp == e.ready.peer && InFlightPeer(cfg.base, m, e.ready.peer)
      requires Nanos(probe.sendTime) == m[e.ready.peer - cfg.base]
      requires Model().found == found + (if sockErr == 0 then [e.ready.peer - cfg.base] else [])
      requires Distinct(Model().found) && Named(cfg.base, scanResults, found)
      requires hostsFound == |scanResults| && notified == if notify then scanResults else []
      modifies `scanResults, `hostsFound, `notified
      ensures ResultsOk() && scanResults == old(scanResults) + Reported(cfg, m, [e])
    {
      ReportedOne(cfg, m, e);
      var rtt := Age(e.ready.at, probe.sendTime);
      if sockErr == 0 {
        assert (found + [e.ready.peer - cfg.base])[..|found|] == found;
        RecordResult(probe.destIp, rtt, e.ready.peer - cfg.base);
      }
    }

    /** Takes in one event: the host whose connection raised it is closed, and reported if the socket has no error. */
    method HandleEvent(e: Raised, ghost m: map<nat, int>)
      requires Shape() && TableOk() && ResultsOk() && Raises(cfg.base, m, probeTable[..], e)
      modifies probeTable, kernel, `activeProbes, `trace, `index, `scanResults, `hostsFound, `notified
      ensures TableOk() && ResultsOk() && probeTable[..] == Vacated(old(probeTable[..]), e.data)
      ensures trace == old(trace) + [Outcome(cfg.base, e.ready)]
      ensures scanResults == old(scanResults) + Reported(cfg, m, [e])
    {
      var slot := e.data;
      if slot >= probeTable.Length {
        return;
      }
      if !probeTable[slot].active {
        return;
      }
      var probe := probeTable[slot];
      ghost var found := Model().found;
      var sockErr := ReadError(e, m);
      CloseSlot(slot, Outcome(cfg.base, e.ready));
      ReportClosed(e, probe, sockErr, m, found);
    }

    /** Takes in what the kernel reports: exactly the steps of the abstract scanner. */
    method PollConnections(polled: seq<Ready>)
      requires Shape() && TableOk() && ResultsOk()
      modifies probeTable, kernel, `activeProbes, `trace, `index, `scanResults, `hostsFound, `notified
      ensures TableOk() && ResultsOk()
      ensures trace == old(trace) + PollEvents(cfg.base, old(Model()).inflight, polled, cfg.batch)
      ensures scanResults == old(scanResults) + PollResults(cfg, old(Model()).inflight, polled, cfg.batch)
    {
      ghost var m := Model().inflight;
      ghost var steps, results := PollEvents(cfg.base, m, polled, cfg.batch), PollResults(cfg, m, polled, cfg.batch);
      ReportPending(cfg, probeTable[..], index, activeProbes, m, kernel.foreign, kernel.sockets, polled, cfg.batch);
      var events := kernel.EpollWait(polled, cfg.batch);
      HandledNone(cfg, old(trace), old(scanResults), m, steps, events);
      for i := 0 to |events|
        invariant TableOk() && ResultsOk() && Credits(cfg.base, steps, events)
        invariant Pending(cfg.base, m, probeTable[..], events, i)
        invariant Handled(cfg, old(trace), old(scanResults), m, steps, events, i, trace, scanResults)
      {
        HandledOne(cfg, old(trace), old(scanResults), m, steps, events, i, trace, scanResults);
        PendingRest(cfg.base, m, probeTable[..], events, i);
        HandleEvent(events[i], m);
      }
      HandledAll(cfg, old(trace), old(scanResults), m, steps, events, trace, scanResults);
    }

    // ----- Reaping -----

    /** Looks at one slot: unregisters, closes and frees it exactly when its connection is over age. */
    method ReapSlot(slot: nat, now: Time, ghost m: map<nat, int>, ghost entries: seq<int>)
      requires slot < probeTable.Length && kernel.opens == kernel.closes + activeProbes
      requires Shutting(cfg, probeTable[..], index, activeProbes, m, entries, slot, now, kernel.foreign, kernel.sockets)
      modifies probeTable, kernel, `activeProbes, `index
      ensures kernel.opens == kernel.closes + activeProbes
      ensures Shutting(cfg, probeTable[..], index, activeProbes, m, entries, slot + 1, now, kernel.foreign,
                       kernel.sockets)
    {
      ghost var slots, foreign, k := probeTable[..], kernel.foreign, kernel.sockets;
      var probe := probeTable[slot];
      if !probe.active {
        ShutPass(cfg, slots, index, activeProbes, m, entries, slot, now, foreign, k);
        return;
      }
      var elapsedNs := Elapsed(now, probe.sendTime);
      ElapsedExact(now, probe.sendTime);
      if elapsedNs > cfg.timeoutMs * NANOSECONDS_PER_MILLISECOND {
        ghost var h := ShutClose(cfg, slots, index, activeProbes, m, entries, slot, now, foreign, k);
        Shut(slot);
        index := index[h := -1];
      } else {
        ShutPass(cfg, slots, index, activeProbes, m, entries, slot, now, foreign, k);
      }
    }

    /** Looks at every slot: of the connections in flight `m`, those over age are closed. */
    method ReapSlots(now: Time, ghost m: map<nat, int>)
      requires Linked(cfg.base, LimitsOf(cfg), Plain(probeTable[..]), index, activeProbes, m)
      requires Wired(probeTable[..], kernel.foreign, kernel.sockets) && kernel.opens == kernel.closes + activeProbes
      modifies probeTable, kernel, `activeProbes, `index
      ensures Linked(cfg.base, LimitsOf(cfg), Plain(probeTable[..]), index, activeProbes,
                     Survivors(m, Nanos(now), TimeoutNs(cfg)))
      ensures Wired(probeTable[..], kernel.foreign, kernel.sockets) && kernel.opens == kernel.closes + activeProbes
    {
      ghost var entries := index;
      ShutStart(cfg, probeTable[..], index, activeProbes, m, now, kernel.foreign, kernel.sockets);
      for slot := 0 to probeTable.Length
        invariant Shutting(cfg, probeTable[..], index, activeProbes, m, entries, slot, now, kernel.foreign,
                           kernel.sockets)
        invariant kernel.opens == kernel.closes + activeProbes
      {
        ReapSlot(slot, now, m, entries);
      }
      ShutEnd(cfg, probeTable[..], index, activeProbes, m, entries, now, kernel.foreign, kernel.sockets);
    }

    /** Closes exactly the connections that are over age at `now`. */
    method ReapTimedOutProbes(now: Time)
      requires Shape() && TableOk()
      modifies probeTable, kernel, `activeProbes, `trace, `index
      ensures TableOk() && trace == old(trace) + ReapEvents(cfg, old(Model()), now)
      ensures Model().found == old(Model()).found
    {
      ghost var slots, entries, before := probeTable[..], index, activeProbes;
      ReapSlots(now, Model().inflight);
      TablesReap(cfg, trace, nextHostIdx, before, slots, entries, now, activeProbes, probeTable[..], index,
                 kernel.foreign, kernel.sockets);
      trace := trace + ReapEvents(cfg, Model(), now);
    }

    // ----- Whole runs -----

    /** The fields record what is in the log. */
    ghost predicate Keeps(l: TcpLog)
      reads `trace, `scanResults
    {
      trace == l.trace && scanResults == l.results
    }

    ghost predicate Valid()
      reads this, probeTable, kernel
    {
      TableOk() && ResultsOk()
    }

    /** The first part of a round. */
    method StartConnections(r: TcpRound, ghost l: TcpLog)
      requires Shape() && Valid() && Keeps(l) && Faithful(cfg, l)
      modifies probeTable, kernel, `activeProbes, `nextHostIdx, `trace, `index
      ensures Valid() && trace == Initiated(cfg, l.trace, r)
    {
      TablesFacts(cfg, trace, nextHostIdx, activeProbes, probeTable[..], index, kernel.foreign, kernel.sockets);
      InitiatedKeepsFound(cfg, l, r);
      InitiateConnections(r.attempts);
    }

    /** One round: start connections, poll them, reap them. */
    method RunRound(r: TcpRound, ghost l: TcpLog)
      requires Shape() && Valid() && Keeps(l) && Faithful(cfg, l)
      modifies this, probeTable, kernel
      ensures Valid() && Keeps(NextLog(cfg, l, r))
    {
      StartConnections(r, l);
      PollConnections(r.polled);
      ReapTimedOutProbes(r.now);
    }

    /** Sets the locals of a run up. */
    method Start()
      requires Shape() && Idle()
      modifies this
      ensures Valid() && Keeps(NO_LOG)
    {
      nextHostIdx, activeProbes, hostsFound := 0, 0, 0;
      scanResults, notified := [], [];
      index := seq(cfg.total, i => -1);
      ghost var l := TablesStart(cfg, probeTable[..], index, kernel.foreign);
      trace := l.trace;
    }

    /** The loop guard fails exactly when the abstract run is over; then everything opened has been closed. */
    lemma OverExactly()
      requires Shape() && TableOk()
      ensures Over(cfg, Model()) <==> !(nextHostIdx < cfg.total || activeProbes > 0)
      ensures Over(cfg, Model()) ==> Idle()
    {
      ghost var slots, foreign, k := probeTable[..], kernel.foreign, kernel.sockets;
      TablesFacts(cfg, trace, nextHostIdx, activeProbes, slots, index, foreign, k);
      if activeProbes == 0 {
        TablesFree(cfg, trace, nextHostIdx, activeProbes, slots, index, foreign, k);
        WiredEnd(slots, foreign, k);
        assert forall s :: 0 <= s < probeTable.Length ==> slots[s] == probeTable[s];
      }
    }

    /** A whole run against any environment in which the abstract run ends: it ends where that ends, returns what that
        reports, has called back exactly those, and leaves no descriptor open: as many were closed as were opened. */
    method Run(env: TcpEnvironment) returns (results: seq<TcpHostResult>, ghost n: nat)
      requires Shape() && Idle() && Halts(cfg, env)
      modifies this, probeTable, kernel
      ensures Valid() && Idle() && Keeps(RunLog(cfg, env, n)) && StoppedAt(cfg, env, n)
      ensures NotStoppedBefore(cfg, env, n)
      ensures results == RunLog(cfg, env, n).results && hostsFound == |results|
      ensures notified == if notify then results else []
    {
      ghost var end: nat :| StoppedAt(cfg, env, end);
      Start();
      ghost var l := NO_LOG;
      CourseStarts(cfg, env);
      var k: nat := 0;
      while nextHostIdx < cfg.total || activeProbes > 0
        invariant Valid() && Keeps(l) && OnCourse(cfg, env, k, l)
        decreases end - k
      {
        OverExactly();
        CourseGoesOn(cfg, env, k, l, end);
        RunRound(env(k), l);
        l := NextLog(cfg, l, env(k));
        k := k + 1;
      }
      OverExactly();
      n := k;
      CourseEnds(cfg, env, n, l);
      results := scanResults;
    }
  }
}
