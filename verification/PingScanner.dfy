/** The ping scanner as it is built: a table of probe slots, a reverse index from hosts to slots, counters, lists and
    send buffers, updated in place.  Every method is proved against the abstract scanner: `trace` records the steps
    taken so far, `stream` the datagrams drained, `wire` the messages handed to the kernel. */
module PingScanners {
  import opened Words
  import opened Wrappers
  import opened Clock
  import opened Icmp
  import opened Ipv4
  import opened ScanModel
  import opened Expiry
  import opened Replies
  import opened PingSpec
  import opened PingRuns
  import opened ProbeTable
  import opened Sequences
  import opened SendQueues
  import opened ScanLinks
  import opened PingLinks
  import opened PingLogs

  class PingScanner {
    const cfg: PingConfig
    const notify: bool
    const probeTable: array<ProbeInfo>
    const hostToProbe: array<int>
    const sendProbeSlots: array<int>
    const queue: SendQueue

    var foundIps: seq<U32>
    var txDrops: U32
    var echoReplies: U32
    var unmatchedReplies: U32
    var probeTimeouts: U32
    var notified: seq<PingHostResult>

    // The locals of a run that its steps update by reference.
    var nextHostIdx: nat
    var activeProbes: nat
    var hostsFound: nat
    var nextSeq: U16
    var scanResults: seq<PingHostResult>

    ghost var trace: seq<Event>
    ghost var stream: seq<Datagram>
    ghost var wire: seq<Echo>

    constructor (base: U32, total: nat, net: NetworkInterface, payloadLen: nat, maxProbes: nat, timeoutMs: U32,
                 sendBatch: nat, recvBatch: nat, pid: U16, notify: bool)
      requires Scannable(base, total)
      ensures Shape() && Valid() && this.notify == notify
      ensures fresh(probeTable) && fresh(hostToProbe) && fresh(sendProbeSlots)
      ensures fresh(queue.packets) && fresh(queue.addresses) && fresh(queue.slices)
      ensures cfg == PingConfig(base, total, net, payloadLen, Min(maxProbes, total), timeoutMs,
                                SafeBatchSize(sendBatch, total), SafeBatchSize(recvBatch, total), pid)
      ensures cfg.cap <= maxProbes && cfg.cap <= total && (cfg.cap == maxProbes || cfg.cap == total)
      ensures cfg.sendBatch <= sendBatch && cfg.sendBatch <= total
              && (cfg.sendBatch == sendBatch || cfg.sendBatch == total)
      ensures cfg.recvBatch <= recvBatch && cfg.recvBatch <= total
              && (cfg.recvBatch == recvBatch || cfg.recvBatch == total)
      ensures maxProbes > 0 && sendBatch > 0 ==> CanProgress(cfg)
      ensures trace == [] && stream == [] && wire == []
    {
      var c := PingConfig(base, total, net, payloadLen, Min(maxProbes, total), timeoutMs,
                          SafeBatchSize(sendBatch, total), SafeBatchSize(recvBatch, total), pid);
      var sendCount := if c.sendBatch < 1 then 1 else c.sendBatch;
      cfg := c;
      this.notify := notify;
      probeTable := new ProbeInfo[c.cap](_ => EMPTY_SLOT);
      hostToProbe := new int[total](_ => -1);
      sendProbeSlots := new int[sendCount](_ => -1);
      queue := new SendQueue(sendCount, payloadLen, pid);
      foundIps, scanResults, notified := [], [], [];
      txDrops, echoReplies, unmatchedReplies, probeTimeouts := 0, 0, 0, 0;
      nextHostIdx, activeProbes, hostsFound, nextSeq := 0, 0, 0, 1;
      trace, stream, wire := [], [], [];
      new;
      EmptyTable(cfg.base, probeTable[..], hostToProbe[..]);
      NoneNumbered(cfg.base, probeTable[..]);
    }

    ghost predicate Shape() {
      && ValidConfig(cfg)
      && probeTable.Length == cfg.cap && hostToProbe.Length == cfg.total
      && sendProbeSlots.Length >= cfg.sendBatch && sendProbeSlots != hostToProbe
      && queue.Shape() && queue.count >= cfg.sendBatch && queue.padding == cfg.padding && queue.id == cfg.pid
    }

    /** The abstract state reached so far. */
    ghost function Model(): State
      reads `trace
    {
      ApplyAll(START, trace)
    }

    ghost predicate TableOk()
      requires Shape()
      reads `trace, `nextHostIdx, `activeProbes, probeTable, hostToProbe
    {
      Stands(cfg.base, LimitsOf(cfg), trace, nextHostIdx, activeProbes, probeTable[..], hostToProbe[..])
    }

    ghost predicate SequencesOk()
      reads `trace, `nextSeq, probeTable
    {
      nextSeq == SeqAt(|Batch(trace)|) && AllNumbered(cfg.base, probeTable[..], Batch(trace))
    }

    ghost predicate RepliesOk()
      reads `trace, `stream, `foundIps, `hostsFound, `scanResults, `notified, `echoReplies, `unmatchedReplies
    {
      Model().found == FoundIn(TargetsOf(cfg), stream) && ListsOk()
    }

    ghost predicate ListsOk()
      reads `stream, `foundIps, `hostsFound, `scanResults, `notified, `echoReplies, `unmatchedReplies
    {
      Logged(TargetsOf(cfg), notify, stream, foundIps, hostsFound, scanResults, notified, echoReplies,
             unmatchedReplies)
    }

    ghost predicate Valid()
      requires Shape()
      reads this, probeTable, hostToProbe
    {
      && TableOk() && SequencesOk() && RepliesOk()
      && Counted(probeTimeouts, trace)
    }

    /** What the table, the index and the counter say about each other in every state: an entry is a slot exactly when
        that slot is active and probes the entry's host; no two active slots probe one host; the counter counts the
        active slots; a host with a slot has not been found; and no host from the cursor on has a slot. */
    lemma IndexAgreement()
      requires Shape() && TableOk()
      ensures forall h, s :: 0 <= h < cfg.total && 0 <= s < cfg.cap ==>
                (hostToProbe[h] == s <==> probeTable[s].active && probeTable[s].destIp == cfg.base + h)
      ensures forall s, s' :: 0 <= s < s' < cfg.cap && probeTable[s].active && probeTable[s'].active ==>
                probeTable[s].destIp != probeTable[s'].destIp
      ensures activeProbes == CountActive(probeTable[..]) <= cfg.cap
      ensures forall h: nat :: h < cfg.total && hostToProbe[h] != -1 ==> h < nextHostIdx && h !in Model().found
    {
      ghost var slots, index, m := probeTable[..], hostToProbe[..], Model();
      IndexExact(cfg.base, slots, index);
      LinkedFacts(cfg.base, LimitsOf(cfg), slots, index, activeProbes, m.inflight);
      RunKeepsInv(LimitsOf(cfg), START, trace);
      forall h: nat | h < cfg.total && hostToProbe[h] != -1
        ensures h < nextHostIdx && h !in m.found
      {
        assert index[h] != -1;
        assert h in m.inflight;
      }
    }

    // ----- Reading the tables -----

    /** The first free slot, or -1 when every slot is active. */
    method FindAvailableProbeSlot() returns (slot: int)
      ensures slot == -1 ==> forall s :: 0 <= s < probeTable.Length ==> probeTable[s].active
      ensures slot != -1 ==> 0 <= slot < probeTable.Length && !probeTable[slot].active
                             && forall s :: 0 <= s < slot ==> probeTable[s].active
    {
      for i := 0 to probeTable.Length
        invariant forall s :: 0 <= s < i ==> probeTable[s].active
      {
        if !probeTable[i].active {
          return i;
        }
      }
      return -1;
    }

    predicate IsHostFound(ip: U32)
      reads `foundIps
    {
      ip in foundIps
    }

    // ----- Releasing a slot -----

    /** Frees an active slot: its host leaves the probes in flight `m`, and no other slot or entry changes.  A slot
        that is out of range or not active is left alone. */
    method ReleaseProbeSlot(slot: int, ghost m: map<nat, int>)
      requires Shape() && Linked(cfg.base, LimitsOf(cfg), probeTable[..], hostToProbe[..], activeProbes, m)
      modifies probeTable, hostToProbe, `activeProbes
      ensures 0 <= slot < probeTable.Length && old(probeTable[slot].active) ==>
                var h := old(probeTable[slot].destIp) - cfg.base;
                && 0 <= h < cfg.total
                && probeTable[..] == Freed(old(probeTable[..]), slot)
                && hostToProbe[..] == old(hostToProbe[..])[h := -1]
                && Linked(cfg.base, LimitsOf(cfg), probeTable[..], hostToProbe[..], activeProbes, m - {h})
      ensures !(0 <= slot < probeTable.Length && old(probeTable[slot].active)) ==>
                && probeTable[..] == old(probeTable[..]) && hostToProbe[..] == old(hostToProbe[..])
                && activeProbes == old(activeProbes)
    {
      if slot < 0 || slot >= probeTable.Length { return; }
      var probe := probeTable[slot];
      if !probe.active { return; }
      ghost var slots, index := probeTable[..], hostToProbe[..];
      ghost var h := Releasable(slots, index, m, slot);
      var hostIdx := HostIndex(cfg.base, cfg.total, probe.destIp);
      if hostIdx >= 0 && hostToProbe[hostIdx] == slot {
        hostToProbe[hostIdx] := -1;
      }
      probeTable[slot] := probe.(active := false);
      if activeProbes > 0 {
        activeProbes := activeProbes - 1;
      }
      assert probeTable[..] == Freed(slots, slot);
      assert hostToProbe[..] == index[h := -1];
    }

    /** The host of an active slot, and the table without it. */
    lemma Releasable(slots: seq<ProbeInfo>, index: seq<int>, m: map<nat, int>, slot: nat) returns (h: nat)
      requires ValidConfig(cfg) && Linked(cfg.base, LimitsOf(cfg), slots, index, activeProbes, m)
      requires slot < |slots| && slots[slot].active
      ensures h < |index| && index[h] == slot && slots[slot].destIp == cfg.base + h && h in m && activeProbes > 0
      ensures HostIndex(cfg.base, cfg.total, slots[slot].destIp) == h
      ensures Linked(cfg.base, LimitsOf(cfg), Freed(slots, slot), index[h := -1],
                     activeProbes - 1, m - {h})
    {
      h := LinkedOwner(cfg.base, LimitsOf(cfg), slots, index, activeProbes, m, slot);
      HostIndexOf(cfg.base, cfg.total, h);
      LinkedClose(cfg.base, LimitsOf(cfg), slots, index, activeProbes, m, h);
    }

    // ----- Populating a batch -----

    /** Gives the host at the cursor a slot and a sequence number, and moves the cursor on. */
    method OpenProbe(slot: nat, targetIp: U32, hostIdx: nat, sendTime: Time) returns (candidate: U16)
      requires Shape() && TableOk() && SequencesOk()
      requires slot < cfg.cap && !probeTable[slot].active
      requires hostIdx == nextHostIdx < cfg.total && activeProbes < cfg.cap && targetIp == cfg.base + nextHostIdx
      requires nextHostIdx !in Model().found
      modifies probeTable, hostToProbe, `nextHostIdx, `activeProbes, `nextSeq, `trace
      ensures TableOk() && SequencesOk()
      ensures trace == old(trace) + [Launch(hostIdx, Nanos(sendTime))]
      ensures Model() == Apply(old(Model()), Launch(hostIdx, Nanos(sendTime)))
      ensures hostToProbe[..] == old(hostToProbe[..])[hostIdx := slot]
      ensures nextHostIdx == hostIdx + 1 && activeProbes == old(activeProbes) + 1
      ensures candidate == SeqAt(|Batch(old(trace))|) && Batch(trace) == Batch(old(trace)) + [hostIdx]
    {
      ghost var slots, index, launches := probeTable[..], hostToProbe[..], Batch(trace);
      ghost var launch := Launch(hostIdx, Nanos(sendTime));
      AllocationOrder(|launches|, 0);
      candidate, nextSeq := Allocate(nextSeq).0, Allocate(nextSeq).1;
      var probe := ProbeInfo(true, targetIp, candidate, sendTime);
      StandsLaunch(cfg.base, LimitsOf(cfg), trace, nextHostIdx, activeProbes, slots, index, slot, probe);
      BatchExtended(trace, launch);
      NumberedLaunch(cfg.base, slots, launches, slot, hostIdx, probe);
      probeTable[slot] := probe;
      hostToProbe[hostIdx] := slot;
      nextHostIdx := nextHostIdx + 1;
      activeProbes := activeProbes + 1;
      trace := trace + [launch];
      assert probeTable[..] == slots[slot := probe];
      assert hostToProbe[..] == index[hostIdx := slot];
    }

    /** The batch built so far is in the buffers: position `k` holds the slot of host `batch[k]` and its packet,
        numbered from allocation `first` on. */
    ghost predicate Queued(batch: seq<nat>, first: nat, sendTime: Time)
      requires Shape()
      reads `nextHostIdx, hostToProbe, sendProbeSlots, queue.packets, queue.addresses, queue.slices
    {
      && InSlots(sendProbeSlots[..], hostToProbe[..], batch, nextHostIdx)
      && queue.Holds(cfg.base, EchoBatch(batch, first, sendTime))
    }

    /** Moves the cursor over a host without a probe. */
    method PassOver(ghost reason: Reason)
      requires Shape() && TableOk() && SequencesOk() && nextHostIdx < cfg.total
      requires reason == AlreadyFound ==> nextHostIdx in Model().found
      modifies `nextHostIdx, `trace
      ensures TableOk() && SequencesOk() && nextHostIdx == old(nextHostIdx) + 1
      ensures trace == old(trace) + [Skip(old(nextHostIdx), reason)]
      ensures Model() == Apply(old(Model()), Skip(old(nextHostIdx), reason)) && Batch(trace) == Batch(old(trace))
    {
      ghost var skip := Skip(nextHostIdx, reason);
      StandsSkip(cfg.base, LimitsOf(cfg), trace, nextHostIdx, activeProbes, probeTable[..], hostToProbe[..], reason);
      BatchExtended(trace, skip);
      trace := trace + [skip];
      nextHostIdx := nextHostIdx + 1;
    }

    /** Writes the packet of a launched probe into the batch, with the slot it came from. */
    method QueuePacket(position: nat, slot: int, targetIp: U32, candidate: U16, sendTime: Time,
                       ghost echoes: seq<Echo>, ghost e: Echo)
      requires Shape() && position < cfg.sendBatch && |echoes| == position && queue.Holds(cfg.base, echoes)
      requires targetIp == HostAddress(cfg.base, e.host) && candidate == SeqAt(e.allocation) && sendTime == e.sent
      modifies sendProbeSlots, queue.packets, queue.addresses, queue.slices
      ensures queue.Holds(cfg.base, echoes + [e])
      ensures sendProbeSlots[..] == old(sendProbeSlots[..])[position := slot]
    {
      ghost var queued := sendProbeSlots[..];
      queue.Append(position, targetIp, candidate, sendTime, cfg.base, echoes, e);
      sendProbeSlots[position] := slot;
      assert sendProbeSlots[..] == queued[position := slot];
    }

    /** Launches a probe to the host at the cursor as the next entry of the batch. */
    method Enqueue(slot: nat, targetIp: U32, hostIdx: nat, sendTime: Time, batchCount: nat,
                   ghost batch: seq<nat>, ghost first: nat)
      requires Shape() && TableOk() && SequencesOk() && Queued(batch, first, sendTime)
      requires batchCount == |batch| < cfg.sendBatch && |Batch(trace)| == first + |batch|
      requires slot < cfg.cap && !probeTable[slot].active
      requires hostIdx == nextHostIdx < cfg.total && activeProbes < cfg.cap && targetIp == cfg.base + hostIdx
      requires hostIdx !in Model().found
      modifies probeTable, hostToProbe, sendProbeSlots, queue.packets, queue.addresses, queue.slices
      modifies `nextHostIdx, `activeProbes, `nextSeq, `trace
      ensures TableOk() && SequencesOk() && Queued(batch + [hostIdx], first, sendTime)
      ensures trace == old(trace) + [Launch(hostIdx, Nanos(sendTime))] && |Batch(trace)| == first + |batch| + 1
      ensures Model() == Apply(old(Model()), Launch(hostIdx, Nanos(sendTime)))
      ensures nextHostIdx == hostIdx + 1 && activeProbes == old(activeProbes) + 1
    {
      ghost var echoes := EchoBatch(batch, first, sendTime);
      InSlotsLaunch(sendProbeSlots[..], hostToProbe[..], batch, nextHostIdx, slot);
      EchoBatchExtended(batch, hostIdx, first, sendTime);
      HostIndexOf(cfg.base, cfg.total, hostIdx);
      var candidate := OpenProbe(slot, targetIp, hostIdx, sendTime);
      QueuePacket(batchCount, slot, targetIp, candidate, sendTime, echoes, Echo(hostIdx, first + |batch|, sendTime));
    }

    /** The address of the host at the cursor, and the index of that address. */
    method Target() returns (targetIp: U32, hostIdx: int)
      requires Shape() && nextHostIdx < cfg.total
      ensures targetIp == cfg.base + nextHostIdx && hostIdx == nextHostIdx
    {
      HostIndexOf(cfg.base, cfg.total, nextHostIdx);
      targetIp := HostAddress(cfg.base, nextHostIdx);
      hostIdx := HostIndex(cfg.base, cfg.total, targetIp);
    }

    /** Whether the host at the cursor needs no probe.  Its index is never out of range and never has a slot. */
    method Inspect() returns (targetIp: U32, hostIdx: int, reason: Option<Reason>)
      requires Shape() && TableOk() && Addresses(cfg.base, foundIps, Model().found) && nextHostIdx < cfg.total
      ensures targetIp == cfg.base + nextHostIdx && hostIdx == nextHostIdx
      ensures reason == if LocalSkip(cfg.net, cfg.base, nextHostIdx) then Some(LocalAddress)
                        else if nextHostIdx in Model().found then Some(AlreadyFound)
                        else None
    {
      targetIp, hostIdx := Target();
      StandsFacts(cfg.base, LimitsOf(cfg), trace, nextHostIdx, activeProbes, probeTable[..], hostToProbe[..]);
      AddressFound(cfg.base, foundIps, Model().found, nextHostIdx);
      if cfg.net.isLocal && (targetIp == cfg.net.networkIp || targetIp == cfg.net.broadcastIp) {
        reason := Some(LocalAddress);
      } else if hostIdx < 0 || IsHostFound(targetIp) || hostToProbe[hostIdx] >= 0 {
        reason := Some(AlreadyFound);
      } else {
        reason := None;
      }
    }

    /** Passes the host at the cursor: skips it or enqueues a probe to it.  A slot is always found. */
    method PopulateHost(sendTime: Time, batchCount: nat, ghost batch: seq<nat>, ghost first: nat)
      returns (batchCount': nat, stuck: bool)
      requires Shape() && TableOk() && SequencesOk() && Queued(batch, first, sendTime)
      requires batchCount == |batch| < cfg.sendBatch && |Batch(trace)| == first + |batch|
      requires nextHostIdx < cfg.total && activeProbes < cfg.cap && Addresses(cfg.base, foundIps, Model().found)
      modifies probeTable, hostToProbe, sendProbeSlots, queue.packets, queue.addresses, queue.slices
      modifies `nextHostIdx, `activeProbes, `nextSeq, `trace
      ensures !stuck && TableOk() && SequencesOk()
      ensures nextHostIdx == old(nextHostIdx) + 1 && Model().found == old(Model()).found
      ensures var e := Pass(cfg, old(Model()).found, old(nextHostIdx), Nanos(sendTime));
        && trace == old(trace) + [e]
        && (if e.Launch?
            then batchCount' == batchCount + 1 && activeProbes == old(activeProbes) + 1
                 && Queued(batch + [old(nextHostIdx)], first, sendTime) && |Batch(trace)| == first + |batch| + 1
            else batchCount' == batchCount && activeProbes == old(activeProbes)
                 && Queued(batch, first, sendTime) && |Batch(trace)| == first + |batch|)
    {
      batchCount', stuck := batchCount, false;
      StandsFacts(cfg.base, LimitsOf(cfg), trace, nextHostIdx, activeProbes, probeTable[..], hostToProbe[..]);
      var free := FindAvailableProbeSlot();
      if free < 0 {
        return batchCount, true;
      }
      var targetIp, hostIdx, reason := Inspect();
      match reason {
        case Some(why) =>
          PassOver(why);
        case None =>
          var slot := FindAvailableProbeSlot();
          if slot < 0 {
            return batchCount, true;
          }
          Enqueue(slot, targetIp, hostIdx, sendTime, batchCount, batch, first);
          batchCount' := batchCount + 1;
      }
    }

    /** Fills a batch with the hosts from the cursor on, exactly as the abstract scanner does: the tests for a missing
        slot and for a host that already has one never succeed. */
    method PopulateBatchEntries(sendTime: Time) returns (batchCount: nat)
      requires Shape() && TableOk() && SequencesOk() && Addresses(cfg.base, foundIps, Model().found)
      modifies probeTable, hostToProbe, sendProbeSlots, queue.packets, queue.addresses, queue.slices
      modifies `nextHostIdx, `activeProbes, `nextSeq, `trace
      ensures TableOk() && SequencesOk()
      ensures var evs := Populate(cfg, old(Model()), cfg.sendBatch, Nanos(sendTime));
        && trace == old(trace) + evs
        && batchCount == |Batch(evs)|
        && Queued(Batch(evs), |Batch(old(trace))|, sendTime)
    {
      ghost var t, before, m, done := Nanos(sendTime), trace, Model(), [];
      ghost var first, batch := |Batch(trace)|, [];
      batchCount := 0;
      StandsFacts(cfg.base, LimitsOf(cfg), trace, nextHostIdx, activeProbes, probeTable[..], hostToProbe[..]);
      while nextHostIdx < cfg.total && activeProbes < cfg.cap && batchCount < cfg.sendBatch
        invariant TableOk() && SequencesOk() && Queued(batch, first, sendTime)
        invariant trace == before + done && Model().found == m.found
        invariant batchCount == |batch| <= cfg.sendBatch && |Batch(trace)| == first + |batch|
        invariant nextHostIdx <= cfg.total && activeProbes == old(activeProbes) + batchCount
        invariant Partial(cfg, m, old(activeProbes), t, done, batch, nextHostIdx)
        decreases cfg.total - nextHostIdx
      {
        ghost var e, h := Pass(cfg, Model().found, nextHostIdx, t), nextHostIdx;
        PartialExtended(cfg, m, old(activeProbes), t, done, batch, h);
        var stuck;
        batchCount, stuck := PopulateHost(sendTime, batchCount, batch, first);
        if stuck {
          break;
        }
        Regroup(before, done, [e]);
        done := done + [e];
        batch := if e.Launch? then batch + [h] else batch;
      }
      PartialComplete(cfg, before, old(activeProbes), t, done, batch, nextHostIdx);
    }

    // ----- Sending a batch -----

    /** Frees the slot of entry `i` of the batch. */
    method WithdrawOne(i: nat, ghost batch: seq<nat>, ghost m: map<nat, int>)
      requires Shape() && Linked(cfg.base, LimitsOf(cfg), probeTable[..], hostToProbe[..], activeProbes, m)
      requires StillInSlots(sendProbeSlots[..], hostToProbe[..], batch, i) && i < |batch|
      requires Increasing(batch) && batch[i] in m
      modifies probeTable, hostToProbe, sendProbeSlots, `activeProbes
      ensures Linked(cfg.base, LimitsOf(cfg), probeTable[..], hostToProbe[..], activeProbes, m - {batch[i]})
      ensures StillInSlots(sendProbeSlots[..], hostToProbe[..], batch, i + 1)
      ensures sendProbeSlots[..] == old(sendProbeSlots[..])[i := -1]
      ensures OnlyFreed(old(probeTable[..]), probeTable[..])
    {
      ghost var queued, index := sendProbeSlots[..], hostToProbe[..];
      var slot := sendProbeSlots[i];
      Withdrawable(cfg, probeTable[..], index, activeProbes, m, queued, batch, i);
      ReleaseProbeSlot(slot, m);
      sendProbeSlots[i] := -1;
      assert sendProbeSlots[..] == queued[i := -1];
    }

    /** Frees the slots of the unsent hosts and moves the cursor back by their number. */
    method Withdraw(sentTotal: nat, batchCount: nat, ghost batch: seq<nat>, ghost m: map<nat, int>)
      requires Shape() && Linked(cfg.base, LimitsOf(cfg), probeTable[..], hostToProbe[..], activeProbes, m)
      requires StillInSlots(sendProbeSlots[..], hostToProbe[..], batch, 0)
      requires sentTotal <= batchCount == |batch| <= nextHostIdx && Increasing(batch)
      requires forall k :: 0 <= k < |batch| ==> batch[k] in m
      modifies probeTable, hostToProbe, sendProbeSlots, `activeProbes, `nextHostIdx
      ensures Linked(cfg.base, LimitsOf(cfg), probeTable[..], hostToProbe[..], activeProbes,
                     Without(m, batch, sentTotal, batchCount))
      ensures OnlyFreed(old(probeTable[..]), probeTable[..])
      ensures nextHostIdx == old(nextHostIdx) - (batchCount - sentTotal)
      ensures Unset(sendProbeSlots[..], sentTotal, batchCount)
    {
      ghost var left := m;
      for i := sentTotal to batchCount
        invariant Linked(cfg.base, LimitsOf(cfg), probeTable[..], hostToProbe[..], activeProbes, left)
        invariant Withdrawing(m, batch, sentTotal, i, left)
        invariant StillInSlots(sendProbeSlots[..], hostToProbe[..], batch, i)
        invariant OnlyFreed(old(probeTable[..]), probeTable[..]) && nextHostIdx == old(nextHostIdx)
        invariant Unset(sendProbeSlots[..], sentTotal, i)
      {
        UnsetOne(sendProbeSlots[..], sentTotal, i);
        WithdrawingNext(m, batch, sentTotal, i, left);
        WithdrawOne(i, batch, left);
        left := left - {batch[i]};
      }
      nextHostIdx := nextHostIdx - (batchCount - sentTotal);
    }

    /** Hands the batch to the kernel until it is all taken or cannot be: how many messages got out. */
    method SendMessages(batchCount: nat, outcomes: seq<SendOutcome>, ghost echoes: seq<Echo>) returns (sentTotal: nat)
      requires Shape() && batchCount == |echoes| && queue.Holds(cfg.base, echoes)
      modifies `txDrops, `wire
      ensures sentTotal == Delivered(outcomes, batchCount)
      ensures wire == old(wire) + echoes[..sentTotal]
      ensures txDrops == Add(old(txDrops), Drops(outcomes, batchCount))
    {
      sentTotal := 0;
      var k: nat := 0;
      ghost var drops: nat := 0;
      SendingStarts(outcomes, batchCount);
      while sentTotal < batchCount
        invariant Sending(outcomes, batchCount, k, sentTotal, drops)
        invariant wire == old(wire) + echoes[..sentTotal] && txDrops == Add(old(txDrops), drops)
        decreases |outcomes| - k
      {
        var remaining := batchCount - sentTotal;
        if k == |outcomes| {
          break;
        }
        SendingTurn(outcomes, batchCount, k, sentTotal, drops);
        var outcome := outcomes[k];
        if outcome.Sent? && outcome.count > 0 {
          var sent := Min(outcome.count, remaining);
          ghost var es := queue.Transmit(sentTotal, sent, cfg.base, echoes);
          OnWire(old(wire), echoes, sentTotal, sent);
          wire := wire + es;
          sentTotal := sentTotal + sent;
        } else if outcome.WouldBlock? {
          AddOne(old(txDrops), drops);
          txDrops := Increment(txDrops);
          drops := drops + 1;
          if !outcome.writable {
            return;
          }
        } else {
          return;
        }
        k := k + 1;
      }
      SendingEnds(outcomes, batchCount, k, sentTotal, drops);
    }

    /** Sends the batch.  What the kernel took is on the wire; if it did not take everything, the rest of the batch is
        withdrawn. */
    method FlushSendQueue(batchCount: nat, outcomes: seq<SendOutcome>, ghost batch: seq<nat>, ghost m: map<nat, int>,
                          ghost echoes: seq<Echo>) returns (ok: bool)
      requires Shape() && Linked(cfg.base, LimitsOf(cfg), probeTable[..], hostToProbe[..], activeProbes, m)
      requires StillInSlots(sendProbeSlots[..], hostToProbe[..], batch, 0)
      requires batchCount == |batch| == |echoes| <= nextHostIdx && Increasing(batch)
      requires forall k :: 0 <= k < |batch| ==> batch[k] in m
      requires queue.Holds(cfg.base, echoes)
      modifies probeTable, hostToProbe, sendProbeSlots, `activeProbes, `nextHostIdx, `txDrops, `wire
      ensures ok <==> Delivered(outcomes, batchCount) == batchCount
      ensures wire == old(wire) + echoes[..Delivered(outcomes, batchCount)]
      ensures txDrops == Add(old(txDrops), Drops(outcomes, batchCount))
      ensures ok ==> probeTable[..] == old(probeTable[..]) && hostToProbe[..] == old(hostToProbe[..])
                     && activeProbes == old(activeProbes) && nextHostIdx == old(nextHostIdx)
      ensures !ok ==>
        && OnlyFreed(old(probeTable[..]), probeTable[..])
        && Linked(cfg.base, LimitsOf(cfg), probeTable[..], hostToProbe[..], activeProbes,
                  Without(m, batch, Delivered(outcomes, batchCount), batchCount))
        && nextHostIdx == old(nextHostIdx) - (batchCount - Delivered(outcomes, batchCount))
      ensures Unset(sendProbeSlots[..], if ok then 0 else Delivered(outcomes, batchCount), batchCount)
    {
      var sentTotal := SendMessages(batchCount, outcomes, echoes);
      if sentTotal < batchCount {
        Withdraw(sentTotal, batchCount, batch, m);
        return false;
      }
      ClearSlots(batchCount);
      return true;
    }

    method ClearSlots(batchCount: nat)
      requires batchCount <= sendProbeSlots.Length
      modifies sendProbeSlots
      ensures forall i :: 0 <= i < batchCount ==> sendProbeSlots[i] == -1
      ensures forall i :: batchCount <= i < sendProbeSlots.Length ==> sendProbeSlots[i] == old(sendProbeSlots[i])
    {
      for i := 0 to batchCount
        invariant forall j :: 0 <= j < i ==> sendProbeSlots[j] == -1
        invariant forall j :: i <= j < sendProbeSlots.Length ==> sendProbeSlots[j] == old(sendProbeSlots[j])
      {
        sendProbeSlots[i] := -1;
      }
    }

    /** Sends a populated batch; a failure is recorded as the rollback of what was not sent. */
    method FlushBatch(batchCount: nat, sendTime: Time, outcomes: seq<SendOutcome>, ghost tr0: seq<Event>,
                      ghost m: State, ghost evs: seq<Event>) returns (ok: bool)
      requires Shape() && TableOk() && SequencesOk()
      requires Legal(LimitsOf(cfg), START, tr0) && m == ApplyAll(START, tr0)
      requires evs == Populate(cfg, m, cfg.sendBatch, Nanos(sendTime)) && trace == tr0 + evs
      requires batchCount == |Batch(evs)| && Queued(Batch(evs), |Batch(tr0)|, sendTime)
      modifies probeTable, hostToProbe, sendProbeSlots, `activeProbes, `nextHostIdx, `trace, `txDrops, `wire
      ensures TableOk() && SequencesOk()
      ensures ok <==> Delivered(outcomes, batchCount) == batchCount
      ensures trace == if ok then tr0 + evs
                       else tr0 + (evs + [Rollback(AsSet(Batch(evs)[Delivered(outcomes, batchCount)..]))])
      ensures wire == old(wire) + EchoBatch(Batch(evs), |Batch(tr0)|, sendTime)[..Delivered(outcomes, batchCount)]
      ensures txDrops == Add(old(txDrops), Drops(outcomes, batchCount))
    {
      ghost var t, b, echoes := Nanos(sendTime), Batch(evs), EchoBatch(Batch(evs), |Batch(tr0)|, sendTime);
      ghost var slots, sent := probeTable[..], Delivered(outcomes, batchCount);
      StandsBatch(cfg, tr0, m, evs, t, nextHostIdx, activeProbes, slots, hostToProbe[..], sendProbeSlots[..]);
      ok := FlushSendQueue(batchCount, outcomes, b, ApplyAll(m, evs).inflight, echoes);
      if !ok {
        NoteRollback(tr0, m, evs, t, sent, slots);
      }
    }

    /** The batch was withdrawn from position `sent` on: the trace says so. */
    ghost method NoteRollback(tr0: seq<Event>, m: State, evs: seq<Event>, t: int, sent: nat, slots: seq<ProbeInfo>)
      requires Shape() && Legal(LimitsOf(cfg), START, tr0) && m == ApplyAll(START, tr0)
      requires evs == Populate(cfg, m, cfg.sendBatch, t) && sent < |Batch(evs)| && trace == tr0 + evs
      requires nextHostIdx + (|Batch(evs)| - sent) == ApplyAll(m, evs).cursor
      requires Linked(cfg.base, LimitsOf(cfg), probeTable[..], hostToProbe[..], activeProbes,
                      Without(ApplyAll(m, evs).inflight, Batch(evs), sent, |Batch(evs)|))
      requires AllNumbered(cfg.base, slots, Batch(trace)) && OnlyFreed(slots, probeTable[..])
      requires nextSeq == SeqAt(|Batch(trace)|)
      modifies `trace
      ensures TableOk() && SequencesOk()
      ensures trace == tr0 + (evs + [Rollback(AsSet(Batch(evs)[sent..]))])
    {
      trace := RecordRollback(cfg, tr0, m, evs, t, sent, nextHostIdx, activeProbes, slots, probeTable[..],
                              hostToProbe[..]);
    }

    /** Launches and sends one batch: the steps are those of the abstract scanner, and exactly the requests the kernel
        took are on the wire. */
    method SendBatch(sendTime: Time, outcomes: seq<SendOutcome>) returns (ok: bool)
      requires Shape() && TableOk() && SequencesOk() && Addresses(cfg.base, foundIps, Model().found)
      modifies probeTable, hostToProbe, sendProbeSlots, queue.packets, queue.addresses, queue.slices
      modifies `nextHostIdx, `activeProbes, `nextSeq, `trace, `txDrops, `wire
      ensures TableOk() && SequencesOk()
      ensures ok == SendSucceeds(cfg, old(Model()), Nanos(sendTime), outcomes)
      ensures trace == old(trace) + SendEvents(cfg, old(Model()), Nanos(sendTime), outcomes)
      ensures var b := Batch(Populate(cfg, old(Model()), cfg.sendBatch, Nanos(sendTime)));
        && wire == old(wire) + EchoBatch(b, |Batch(old(trace))|, sendTime)[..Delivered(outcomes, |b|)]
        && txDrops == Add(old(txDrops), Drops(outcomes, |b|))
    {
      ghost var m, tr0 := Model(), trace;
      ghost var evs := Populate(cfg, m, cfg.sendBatch, Nanos(sendTime));
      var batchCount := PopulateBatchEntries(sendTime);
      if batchCount == 0 {
        assert wire + EchoBatch(Batch(evs), |Batch(tr0)|, sendTime)[..0] == wire;
        return true;
      }
      ok := FlushBatch(batchCount, sendTime, outcomes, tr0, m, evs);
    }

    // ----- Receiving -----

    /** Frees the slot that a found host may still hold. */
    method CloseFound(hostIdx: nat, targetIp: U32)
      requires Shape() && TableOk() && SequencesOk()
      requires hostIdx < cfg.total && targetIp == cfg.base + hostIdx && hostIdx !in Model().found
      modifies probeTable, hostToProbe, `activeProbes, `trace
      ensures TableOk() && SequencesOk()
      ensures var e := if hostIdx in old(Model()).inflight then Answer(hostIdx) else Stray(hostIdx);
        trace == old(trace) + [e] && Model().found == old(Model()).found + [hostIdx]
    {
      ghost var slots, index := probeTable[..], hostToProbe[..];
      ghost var e := if hostIdx in Model().inflight then Answer(hostIdx) else Stray(hostIdx);
      if e.Answer? {
        StandsClose(cfg.base, LimitsOf(cfg), trace, nextHostIdx, activeProbes, slots, index, e);
      } else {
        StandsStray(cfg.base, LimitsOf(cfg), trace, nextHostIdx, activeProbes, slots, index, hostIdx);
      }
      BatchExtended(trace, e);
      var slot := hostToProbe[hostIdx];
      if slot >= 0 && slot < probeTable.Length {
        var probe := probeTable[slot];
        if probe.active && probe.destIp == targetIp {
          probeTable[slot] := probe.(active := false);
          if activeProbes > 0 {
            activeProbes := activeProbes - 1;
          }
          assert probeTable[..] == Freed(slots, slot);
          NumberedFreed(cfg.base, slots, probeTable[..], Batch(trace));
        }
        hostToProbe[hostIdx] := -1;
        assert hostToProbe[..] == index[hostIdx := -1];
      }
      trace := trace + [e];
    }

    /** Reads a datagram and tests it against the range and the found list: `Fresh` exactly when it adds a host. */
    method Examine(d: Datagram) returns (v: Verdict)
      requires Shape() && Addresses(cfg.base, foundIps, Model().found) && |d.bytes| >= HEADER_SIZE
      requires Model().found == FoundIn(TargetsOf(cfg), stream)
      ensures v.TooShort? <==> IsShort(d)
      ensures v.NoReply? <==> !IsShort(d) && !IsEchoReply(d)
      ensures v.Fresh? <==> AddsHost(TargetsOf(cfg), stream, d)
      ensures v.Fresh? ==>
                && |d.bytes| >= MIN_REPLY && v.target == d.source == cfg.base + v.host
                && v.host < cfg.total && v.host !in Model().found && Claim(TargetsOf(cfg), d) == Some(v.host)
    {
      AddsHostByTests(TargetsOf(cfg), stream, d);
      if |d.bytes| < MIN_REPLY {
        return TooShort;
      }
      if d.bytes[0] != ICMP_ECHOREPLY {
        return NoReply;
      }
      var target := ReplyTarget(d.bytes);
      if d.source != target {
        return NoNewHost;
      }
      var hostIdx := HostIndex(cfg.base, cfg.total, target);
      if hostIdx < 0 {
        return NoNewHost;
      }
      AddressFound(cfg.base, foundIps, Model().found, hostIdx);
      if IsHostFound(target) {
        return NoNewHost;
      }
      return Fresh(target, hostIdx);
    }

    /** Takes in one datagram that is long enough for an ICMP header: exactly the step of the abstract scanner, and the
        lists and counters are those of the stream with the datagram added. */
    method ProcessReceivedPacket(d: Datagram)
      requires Shape() && TableOk() && SequencesOk() && RepliesOk() && |d.bytes| >= HEADER_SIZE
      modifies probeTable, hostToProbe, `activeProbes, `trace, `stream
      modifies `foundIps, `hostsFound, `scanResults, `notified, `echoReplies, `unmatchedReplies
      ensures TableOk() && SequencesOk() && RepliesOk()
      ensures stream == old(stream) + [d]
      ensures trace == old(trace) + ReplyEvents(TargetsOf(cfg), old(Model()), d)
    {
      var verdict := Examine(d);
      ReplyEventsAre(TargetsOf(cfg), Model(), stream, d);
      if verdict.Fresh? {
        AddHost(d, verdict.target, verdict.host);
      } else {
        CountQuiet(d, verdict);
      }
    }

    /** Takes in an echo reply that adds a host. */
    method AddHost(d: Datagram, target: U32, hostIdx: nat)
      requires Shape() && TableOk() && SequencesOk() && RepliesOk() && |d.bytes| >= MIN_REPLY
      requires AddsHost(TargetsOf(cfg), stream, d) && Claim(TargetsOf(cfg), d) == Some(hostIdx)
      requires target == d.source == cfg.base + hostIdx && hostIdx < cfg.total && hostIdx !in Model().found
      modifies probeTable, hostToProbe, `activeProbes, `trace, `stream
      modifies `foundIps, `hostsFound, `scanResults, `notified, `echoReplies
      ensures TableOk() && SequencesOk() && RepliesOk() && stream == old(stream) + [d]
      ensures trace == old(trace) + [if hostIdx in old(Model()).inflight then Answer(hostIdx) else Stray(hostIdx)]
    {
      ListHost(d, target, hostIdx);
      CloseListed(hostIdx, target);
    }

    /** Closes the probe of a host that has just been put on the lists. */
    method CloseListed(hostIdx: nat, target: U32)
      requires Shape() && TableOk() && SequencesOk() && ListsOk()
      requires hostIdx < cfg.total && target == cfg.base + hostIdx && hostIdx !in Model().found
      requires FoundIn(TargetsOf(cfg), stream) == Model().found + [hostIdx]
      modifies probeTable, hostToProbe, `activeProbes, `trace
      ensures TableOk() && SequencesOk() && RepliesOk()
      ensures trace == old(trace) + [if hostIdx in old(Model()).inflight then Answer(hostIdx) else Stray(hostIdx)]
    {
      CloseFound(hostIdx, target);
    }

    /** Puts a host on the lists. */
    method ListHost(d: Datagram, target: U32, ghost hostIdx: nat)
      requires ListsOk() && |d.bytes| >= MIN_REPLY && target == d.source
      requires AddsHost(TargetsOf(cfg), stream, d) && Claim(TargetsOf(cfg), d) == Some(hostIdx)
      modifies `stream, `foundIps, `hostsFound, `scanResults, `notified, `echoReplies
      ensures ListsOk() && stream == old(stream) + [d]
      ensures FoundIn(TargetsOf(cfg), stream) == old(FoundIn(TargetsOf(cfg), stream)) + [hostIdx]
    {
      FoundMore(TargetsOf(cfg), stream, d, hostIdx);
      LoggedHost(TargetsOf(cfg), notify, stream, foundIps, hostsFound, scanResults, notified, echoReplies,
                 unmatchedReplies, d);
      var result := PingHostResult(target, RoundTrip(d), d.ttl);
      echoReplies := Increment(echoReplies);
      foundIps := foundIps + [target];
      hostsFound := hostsFound + 1;
      if notify {
        notified := notified + [result];
      }
      scanResults := scanResults + [result];
      stream := stream + [d];
    }

    /** Counts a datagram that adds no host. */
    method CountQuiet(ghost d: Datagram, verdict: Verdict)
      requires RepliesOk() && !AddsHost(TargetsOf(cfg), stream, d) && !verdict.Fresh?
      requires (verdict.TooShort? <==> IsShort(d)) && (verdict.NoNewHost? <==> IsEchoReply(d))
      modifies `stream, `echoReplies, `unmatchedReplies
      ensures RepliesOk() && stream == old(stream) + [d]
    {
      ghost var ts := TargetsOf(cfg);
      LoggedQuiet(ts, notify, stream, foundIps, hostsFound, scanResults, notified, echoReplies, unmatchedReplies, d);
      StreamStep(ts, stream, d);
      if verdict.TooShort? {
        unmatchedReplies := Increment(unmatchedReplies);
      } else if verdict.NoNewHost? {
        echoReplies := Increment(echoReplies);
        unmatchedReplies := Increment(unmatchedReplies);
      }
      stream := stream + [d];
    }

    /** Passes over a datagram that is shorter than an ICMP header. */
    method IgnorePacket(ghost d: Datagram)
      requires Shape() && RepliesOk() && |d.bytes| < HEADER_SIZE
      modifies `stream
      ensures RepliesOk() && stream == old(stream) + [d] && ReplyEvents(TargetsOf(cfg), Model(), d) == []
    {
      ghost var ts := TargetsOf(cfg);
      ReplyEventsAre(ts, Model(), stream, d);
      LoggedQuiet(ts, notify, stream, foundIps, hostsFound, scanResults, notified, echoReplies, unmatchedReplies, d);
      StreamStep(ts, stream, d);
      stream := stream + [d];
    }

    /** Takes in one datagram. */
    method TakePacket(d: Datagram)
      requires Shape() && TableOk() && SequencesOk() && RepliesOk()
      modifies probeTable, hostToProbe, `activeProbes, `trace, `stream
      modifies `foundIps, `hostsFound, `scanResults, `notified, `echoReplies, `unmatchedReplies
      ensures TableOk() && SequencesOk() && RepliesOk()
      ensures stream == old(stream) + [d]
      ensures trace == old(trace) + ReplyEvents(TargetsOf(cfg), old(Model()), d)
    {
      if |d.bytes| < HEADER_SIZE {
        IgnorePacket(d);
        return;
      }
      ProcessReceivedPacket(d);
    }

    /** Takes in the datagrams of one receive call, after those of the calls before. */
    method ProcessBatch(batch: seq<Datagram>, ghost tr0: seq<Event>, ghost stream0: seq<Datagram>,
                        ghost done: seq<Datagram>)
      requires Shape() && TableOk() && SequencesOk() && RepliesOk()
      requires TakenIn(TargetsOf(cfg), tr0, stream0, done, trace, stream)
      modifies probeTable, hostToProbe, `activeProbes, `trace, `stream
      modifies `foundIps, `hostsFound, `scanResults, `notified, `echoReplies, `unmatchedReplies
      ensures TableOk() && SequencesOk() && RepliesOk()
      ensures TakenIn(TargetsOf(cfg), tr0, stream0, done + batch, trace, stream)
    {
      ghost var taken := done;
      PrefixGrows(done, batch, 0);
      for i := 0 to |batch|
        invariant TableOk() && SequencesOk() && RepliesOk()
        invariant taken == done + batch[..i] && TakenIn(TargetsOf(cfg), tr0, stream0, taken, trace, stream)
      {
        TakenInOne(TargetsOf(cfg), tr0, stream0, taken, trace, stream, batch[i]);
        TakePacket(batch[i]);
        PrefixGrows(done, batch, i);
        taken := taken + [batch[i]];
      }
      PrefixGrows(done, batch, |batch|);
    }

    /** Drains the socket: exactly the datagrams that arrive are taken in, in order. */
    method ReceiveResponses(ready: bool, receipts: seq<Receipt>)
      requires Shape() && TableOk() && SequencesOk() && RepliesOk()
      modifies probeTable, hostToProbe, `activeProbes, `trace, `stream
      modifies `foundIps, `hostsFound, `scanResults, `notified, `echoReplies, `unmatchedReplies
      ensures TableOk() && SequencesOk() && RepliesOk()
      ensures TakenIn(TargetsOf(cfg), old(trace), old(stream), if ready then Arrivals(cfg.recvBatch, receipts) else [],
                      trace, stream)
    {
      TakenInNone(TargetsOf(cfg), trace, stream);
      if !ready {
        return;
      }

      ghost var done: seq<Datagram> := [];
      ghost var all := Arrivals(cfg.recvBatch, receipts);
      ArrivingStarts(cfg.recvBatch, receipts);
      var k: nat := 0;
      while k < |receipts|
        invariant Arriving(cfg.recvBatch, receipts, k, done, all)
        invariant TableOk() && SequencesOk() && RepliesOk()
        invariant TakenIn(TargetsOf(cfg), old(trace), old(stream), done, trace, stream)
      {
        ArrivingTurn(cfg.recvBatch, receipts, k, done, all);
        if receipts[k].Failed? {
          return;
        }
        var batch := Batched(cfg.recvBatch, receipts[k].datagrams);
        if |batch| == 0 {
          return;
        }
        ProcessBatch(batch, old(trace), old(stream), done);
        done := done + batch;
        if |batch| < cfg.recvBatch {
          return;
        }
        k := k + 1;
      }
      ArrivingTurn(cfg.recvBatch, receipts, k, done, all);
    }

    // ----- Reaping -----

    /** Frees the slot of host `h` and its entry, and counts a timeout. */
    method Expire(slot: nat, ghost h: nat)
      requires Shape() && slot < probeTable.Length && h < cfg.total && activeProbes > 0
      requires hostToProbe[h] == slot && probeTable[slot].destIp == cfg.base + h
      modifies probeTable, hostToProbe, `activeProbes, `probeTimeouts
      ensures probeTable[..] == Freed(old(probeTable[..]), slot) && hostToProbe[..] == old(hostToProbe[..])[h := -1]
      ensures activeProbes == old(activeProbes) - 1 && probeTimeouts == Increment(old(probeTimeouts))
    {
      ghost var slots, entries := probeTable[..], hostToProbe[..];
      var probe := probeTable[slot];
      HostIndexOf(cfg.base, cfg.total, h);
      var hostIdx := HostIndex(cfg.base, cfg.total, probe.destIp);
      if hostIdx >= 0 && hostToProbe[hostIdx] == slot {
        hostToProbe[hostIdx] := -1;
      }
      probeTable[slot] := probe.(active := false);
      if activeProbes > 0 {
        activeProbes := activeProbes - 1;
      }
      probeTimeouts := Increment(probeTimeouts);
      assert probeTable[..] == Freed(slots, slot) && hostToProbe[..] == entries[h := -1];
    }

    /** Looks at one slot: frees it and counts a timeout exactly when its probe is over age. */
    method ReapSlot(slot: nat, now: Time, timeoutNs: int, ghost m: map<nat, int>, ghost index: seq<int>)
      requires Shape() && timeoutNs == TimeoutNs(cfg) && slot < probeTable.Length
      requires Reaping(cfg.base, LimitsOf(cfg), probeTable[..], hostToProbe[..], activeProbes, m, index, slot,
                       Nanos(now), TimeoutNs(cfg))
      modifies probeTable, hostToProbe, `activeProbes, `probeTimeouts
      ensures Reaping(cfg.base, LimitsOf(cfg), probeTable[..], hostToProbe[..], activeProbes, m, index, slot + 1,
                      Nanos(now), TimeoutNs(cfg))
      ensures OnlyFreed(old(probeTable[..]), probeTable[..])
      ensures activeProbes <= old(activeProbes)
      ensures probeTimeouts == Add(old(probeTimeouts), old(activeProbes) - activeProbes)
    {
      ghost var slots, entries := probeTable[..], hostToProbe[..];
      var probe := probeTable[slot];
      if !probe.active {
        ReapingPass(cfg.base, LimitsOf(cfg), slots, entries, activeProbes, m, index, slot, Nanos(now), TimeoutNs(cfg));
        return;
      }
      var elapsedNs := Elapsed(now, probe.sendTime);
      ElapsedExact(now, probe.sendTime);
      if elapsedNs > timeoutNs {
        ghost var h := ReapingClose(cfg.base, LimitsOf(cfg), slots, entries, activeProbes, m, index, slot, Nanos(now),
                                    TimeoutNs(cfg));
        Expire(slot, h);
      } else {
        ReapingPass(cfg.base, LimitsOf(cfg), slots, entries, activeProbes, m, index, slot, Nanos(now), TimeoutNs(cfg));
      }
    }

    /** Looks at every slot: of the probes in flight `m`, those over age are freed and counted. */
    method ReapSlots(now: Time, ghost m: map<nat, int>)
      requires Shape() && Linked(cfg.base, LimitsOf(cfg), probeTable[..], hostToProbe[..], activeProbes, m)
      modifies probeTable, hostToProbe, `activeProbes, `probeTimeouts
      ensures Linked(cfg.base, LimitsOf(cfg), probeTable[..], hostToProbe[..], activeProbes,
                     Survivors(m, Nanos(now), TimeoutNs(cfg)))
      ensures OnlyFreed(old(probeTable[..]), probeTable[..])
      ensures activeProbes <= old(activeProbes)
      ensures probeTimeouts == Add(old(probeTimeouts), old(activeProbes) - activeProbes)
    {
      ghost var index := hostToProbe[..];
      var timeoutNs := cfg.timeoutMs * NANOSECONDS_PER_MILLISECOND;
      ReapingStart(cfg.base, LimitsOf(cfg), probeTable[..], index, activeProbes, m, Nanos(now), TimeoutNs(cfg));
      for slot := 0 to probeTable.Length
        invariant Reaping(cfg.base, LimitsOf(cfg), probeTable[..], hostToProbe[..], activeProbes, m, index, slot,
                          Nanos(now), TimeoutNs(cfg))
        invariant OnlyFreed(old(probeTable[..]), probeTable[..]) && activeProbes <= old(activeProbes)
        invariant probeTimeouts == Add(old(probeTimeouts), old(activeProbes) - activeProbes)
      {
        ghost var active := activeProbes;
        ReapSlot(slot, now, timeoutNs, m, index);
        AddMore(old(probeTimeouts), old(activeProbes) - active, active - activeProbes);
      }
      ReapingEnd(cfg.base, LimitsOf(cfg), probeTable[..], hostToProbe[..], activeProbes, m, index, Nanos(now),
                 TimeoutNs(cfg));
    }

    /** Closes exactly the probes that are over age at `now`, and counts them. */
    method ReapTimedOutProbes(now: Time)
      requires Shape() && TableOk() && SequencesOk() && Counted(probeTimeouts, trace)
      modifies probeTable, hostToProbe, `activeProbes, `trace, `probeTimeouts
      ensures TableOk() && SequencesOk() && Counted(probeTimeouts, trace)
      ensures trace == old(trace) + ReapEvents(cfg, old(Model()), now) && Model().found == old(Model()).found
    {
      ghost var slots, index, before := probeTable[..], hostToProbe[..], activeProbes;
      ghost var tr := trace + ReapEvents(cfg, Model(), now);
      ReapSlots(now, Model().inflight);
      StandsReap(cfg.base, LimitsOf(cfg), trace, nextHostIdx, before, slots, index, Nanos(now), TimeoutNs(cfg),
                 activeProbes, probeTable[..], hostToProbe[..]);
      ReapLaunchesNone(cfg, trace, now);
      StillCounted(old(probeTimeouts), trace, before - activeProbes, probeTimeouts, tr);
      NumberedFreed(cfg.base, slots, probeTable[..], Batch(trace));
      trace := tr;
    }

    // ----- Whole runs -----

    /** The fields record what is in the log. */
    ghost predicate Keeps(l: Log)
      reads `trace, `stream, `wire, `txDrops
    {
      InLog(l, trace, stream, wire, txDrops)
    }

    /** Frees every slot and clears every entry of the index. */
    method ClearTables()
      requires Shape()
      modifies probeTable, hostToProbe
      ensures Linked(cfg.base, LimitsOf(cfg), probeTable[..], hostToProbe[..], 0, map[])
      ensures AllNumbered(cfg.base, probeTable[..], [])
    {
      for i := 0 to probeTable.Length
        invariant forall j :: 0 <= j < i ==> probeTable[j] == EMPTY_SLOT
      {
        probeTable[i] := EMPTY_SLOT;
      }
      for i := 0 to hostToProbe.Length
        invariant forall j :: 0 <= j < probeTable.Length ==> probeTable[j] == EMPTY_SLOT
        invariant forall j :: 0 <= j < i ==> hostToProbe[j] == -1
      {
        hostToProbe[i] := -1;
      }
      EmptyTable(cfg.base, probeTable[..], hostToProbe[..]);
      NoneNumbered(cfg.base, probeTable[..]);
    }

    /** Clears every list and counter. */
    method ClearFields()
      modifies `foundIps, `scanResults, `notified, `txDrops, `echoReplies, `unmatchedReplies, `probeTimeouts
      modifies `nextHostIdx, `activeProbes, `hostsFound, `nextSeq
      ensures foundIps == [] && scanResults == [] && notified == []
      ensures txDrops == echoReplies == unmatchedReplies == probeTimeouts == 0
      ensures nextHostIdx == activeProbes == hostsFound == 0 && nextSeq == 1
    {
      foundIps := [];
      txDrops, echoReplies, unmatchedReplies, probeTimeouts := 0, 0, 0, 0;
      nextHostIdx, activeProbes, hostsFound, nextSeq := 0, 0, 0, 1;
      scanResults, notified := [], [];
    }

    /** Sets a run up. */
    method Reset()
      requires Shape()
      modifies this, probeTable, hostToProbe
      ensures Valid() && Keeps(NO_LOG)
    {
      ClearTables();
      ClearFields();
      BeginTrace();
    }

    /** With everything cleared, the empty trace is what the fields stand for. */
    ghost method BeginTrace()
      requires Shape() && Linked(cfg.base, LimitsOf(cfg), probeTable[..], hostToProbe[..], 0, map[])
      requires AllNumbered(cfg.base, probeTable[..], [])
      requires foundIps == [] && scanResults == [] && notified == []
      requires txDrops == echoReplies == unmatchedReplies == probeTimeouts == 0
      requires nextHostIdx == activeProbes == hostsFound == 0 && nextSeq == 1
      modifies `trace, `stream, `wire
      ensures Valid() && Keeps(NO_LOG)
    {
      ghost var l := NothingYet(cfg, notify, probeTable[..], hostToProbe[..]);
      trace, stream, wire := l.trace, l.stream, l.wire;
    }

    /** The first part of a round. */
    method SendRound(r: Round, ghost l: Log) returns (ok: bool)
      requires Shape() && TableOk() && SequencesOk() && RepliesOk() && Counted(probeTimeouts, trace) && Keeps(l)
      modifies probeTable, hostToProbe, sendProbeSlots, queue.packets, queue.addresses, queue.slices
      modifies `nextHostIdx, `activeProbes, `nextSeq, `trace, `txDrops, `wire
      ensures TableOk() && SequencesOk() && RepliesOk() && Counted(probeTimeouts, trace)
      ensures AfterSend(cfg, l, r, trace, wire, txDrops)
      ensures ok == SendSucceeds(cfg, ApplyAll(START, l.trace), Nanos(r.sendTime), r.outcomes)
    {
      SendQuiet(cfg, trace, Nanos(r.sendTime), r.outcomes);
      ok := SendBatch(r.sendTime, r.outcomes);
    }

    /** One round: send, and unless that fails, drain and reap. */
    method RunRound(r: Round, ghost l: Log) returns (ok: bool)
      requires Shape() && TableOk() && SequencesOk() && RepliesOk() && Counted(probeTimeouts, trace) && Keeps(l)
      modifies this, probeTable, hostToProbe, sendProbeSlots, queue.packets, queue.addresses, queue.slices
      ensures TableOk() && SequencesOk() && RepliesOk() && Counted(probeTimeouts, trace)
      ensures Keeps(NextLog(cfg, l, r)) && ok == NextLog(cfg, l, r).alive
    {
      ok := SendRound(r, l);
      if !ok {
        RoundFailed(cfg, l, r, trace, wire, txDrops);
        return;
      }
      ghost var tr := trace;
      ghost var drained := FinishRound(r);
      RoundDone(cfg, l, r, tr, drained, stream, wire, txDrops);
    }

    /** The rest of a round whose batch was sent; `drained` are the steps up to the reaping. */
    method FinishRound(r: Round) returns (ghost drained: seq<Event>)
      requires Shape() && TableOk() && SequencesOk() && RepliesOk() && Counted(probeTimeouts, trace)
      modifies probeTable, hostToProbe, `activeProbes, `trace, `stream, `probeTimeouts
      modifies `foundIps, `hostsFound, `scanResults, `notified, `echoReplies, `unmatchedReplies
      ensures TableOk() && SequencesOk() && RepliesOk() && Counted(probeTimeouts, trace)
      ensures TakenIn(TargetsOf(cfg), old(trace), old(stream), Drained(cfg, r), drained, stream)
      ensures trace == drained + ReapEvents(cfg, ApplyAll(START, drained), r.now)
    {
      DrainRound(r);
      drained := trace;
      ReapRound(r.now);
    }

    /** Reaps at the end of a round; the replies are not touched. */
    method ReapRound(now: Time)
      requires Shape() && TableOk() && SequencesOk() && RepliesOk() && Counted(probeTimeouts, trace)
      modifies probeTable, hostToProbe, `activeProbes, `trace, `probeTimeouts
      ensures TableOk() && SequencesOk() && RepliesOk() && Counted(probeTimeouts, trace)
      ensures trace == old(trace) + ReapEvents(cfg, ApplyAll(START, old(trace)), now)
    {
      ReapTimedOutProbes(now);
    }

    /** Drains the replies of a round. */
    method DrainRound(r: Round)
      requires Shape() && TableOk() && SequencesOk() && RepliesOk() && Counted(probeTimeouts, trace)
      modifies probeTable, hostToProbe, `activeProbes, `trace, `stream
      modifies `foundIps, `hostsFound, `scanResults, `notified, `echoReplies, `unmatchedReplies
      ensures TableOk() && SequencesOk() && RepliesOk() && Counted(probeTimeouts, trace)
      ensures TakenIn(TargetsOf(cfg), old(trace), old(stream), Drained(cfg, r), trace, stream)
    {
      ReceiveResponses(r.ready, r.receipts);
      DrainQuiet(TargetsOf(cfg), old(trace), old(stream), Drained(cfg, r), trace, stream);
    }

    /** The loop guard fails exactly when the abstract run is over; then every slot is free and no entry is set. */
    lemma OverExactly()
      requires Shape() && TableOk()
      ensures Over(cfg, Model()) <==> !(nextHostIdx < cfg.total || activeProbes > 0)
      ensures Over(cfg, Model()) ==> Cleared()
    {
      StandsFacts(cfg.base, LimitsOf(cfg), trace, nextHostIdx, activeProbes, probeTable[..], hostToProbe[..]);
      CountBounds(probeTable[..]);
    }

    ghost predicate Cleared()
      reads probeTable, hostToProbe
    {
      && (forall s :: 0 <= s < probeTable.Length ==> !probeTable[s].active)
      && (forall h :: 0 <= h < hostToProbe.Length ==> hostToProbe[h] == -1)
    }

    /** What the run returns: one result for each host found, in order, which the callback has been given too; and the
        counts, modulo 2^32. */
    method Summarize(ghost l: Log) returns (result: PingScanResult)
      requires Shape() && Valid() && Keeps(l) && Faithful(cfg, l)
      ensures |result.hosts| == |Model().found|
      ensures forall k :: 0 <= k < |result.hosts| ==> result.hosts[k].ip == cfg.base + Model().found[k]
      ensures result.hosts == ResultsIn(TargetsOf(cfg), stream) && notified == if notify then result.hosts else []
      ensures result.echoReplies == CountEchoes(stream) % 0x1_0000_0000
      ensures result.probeTimeouts == Tally(trace).expiries % 0x1_0000_0000
      ensures (result.echoReplies + CountShort(stream)) % 0x1_0000_0000
              == (|result.hosts| + result.unmatchedReplies) % 0x1_0000_0000
      ensures result.txDrops == l.drops % 0x1_0000_0000
      ensures result == ResultOf(TargetsOf(cfg), l)
    {
      ResultExact(cfg, l);
      result := PingScanResult(scanResults, txDrops, echoReplies, unmatchedReplies, probeTimeouts);
    }

    /** The rounds of a run, from the start to the one at which the abstract run stops. */
    method RunRounds(env: Environment) returns (ghost n: nat, ghost l: Log)
      requires Shape() && Halts(cfg, env)
      modifies this, probeTable, hostToProbe, sendProbeSlots, queue.packets, queue.addresses, queue.slices
      ensures l == RunLog(cfg, env, n) && Faithful(cfg, l) && StoppedAt(cfg, env, n) && NotStoppedBefore(cfg, env, n)
      ensures Valid() && Keeps(l) && (l.alive ==> Cleared())
    {
      ghost var end: nat :| StoppedAt(cfg, env, end);
      Reset();
      l := NO_LOG;
      CourseStarts(cfg, env);
      var k: nat := 0;
      while nextHostIdx < cfg.total || activeProbes > 0
        invariant Valid() && Keeps(l) && OnCourse(cfg, env, k, l) && l.alive
        decreases end - k
      {
        OverExactly();
        CourseGoesOn(cfg, env, k, l, end);
        var ok := RunRound(env(k), l);
        l := NextLog(cfg, l, env(k));
        k := k + 1;
        if !ok {
          break;
        }
      }
      if l.alive {
        OverExactly();
      }
      n := k;
      CourseEnds(cfg, env, n, l);
      RunFaithful(cfg, env, n);
    }

    /** A whole run against any environment in which the abstract run ends: it stops where that stops, leaves its log,
        and returns what the datagrams and the steps in it amount to: one result for each host found, in order, and the
        counts.  Unless a failure to send cut it off, every slot is free and no entry of the index is set. */
    method Run(env: Environment) returns (result: PingScanResult, ghost n: nat)
      requires Shape() && Halts(cfg, env)
      modifies this, probeTable, hostToProbe, sendProbeSlots, queue.packets, queue.addresses, queue.slices
      ensures Valid() && Keeps(RunLog(cfg, env, n)) && StoppedAt(cfg, env, n)
      ensures NotStoppedBefore(cfg, env, n)
      ensures |result.hosts| == |Model().found|
      ensures forall k :: 0 <= k < |result.hosts| ==> result.hosts[k].ip == cfg.base + Model().found[k]
      ensures result.hosts == ResultsIn(TargetsOf(cfg), stream) && notified == if notify then result.hosts else []
      ensures result.echoReplies == CountEchoes(stream) % 0x1_0000_0000
      ensures result.probeTimeouts == Tally(trace).expiries % 0x1_0000_0000
      ensures (result.echoReplies + CountShort(stream)) % 0x1_0000_0000
              == (|result.hosts| + result.unmatchedReplies) % 0x1_0000_0000
      ensures result.txDrops == RunLog(cfg, env, n).drops % 0x1_0000_0000
      ensures result == ResultOf(TargetsOf(cfg), RunLog(cfg, env, n))
      ensures RunLog(cfg, env, n).alive ==> Cleared()
    {
      ghost var l;
      n, l := RunRounds(env);
      result := Summarize(l);
    }
  }
}
