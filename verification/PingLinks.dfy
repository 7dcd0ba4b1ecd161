/** How the ping scanner's fields stand for the abstract scanner: facts about sequences and traces that its methods
    rely on. */
module PingLinks {
  import opened Words
  import opened Wrappers
  import opened Clock
  import opened Icmp
  import opened Ipv4
  import opened ScanModel
  import opened Expiry
  import opened Replies
  import opened PingSpec
  import opened PingRuns
  import opened ProbeTable
  import opened Sequences
  import opened SendQueues
  import opened ScanLinks

  /** The requests for a batch of hosts, numbered from allocation `first` on. */
  ghost function EchoBatch(batch: seq<nat>, first: nat, sent: Time): (es: seq<Echo>)
    ensures |es| == |batch|
  {
    if batch == [] then [] else
      var n := |batch| - 1;
      EchoBatch(batch[..n], first, sent) + [Echo(batch[n], first + n, sent)]
  }

  lemma EchoBatchExtended(batch: seq<nat>, h: nat, first: nat, sent: Time)
    ensures EchoBatch(batch + [h], first, sent) == EchoBatch(batch, first, sent) + [Echo(h, first + |batch|, sent)]
  {
    assert (batch + [h])[..|batch|] == batch;
  }

  /** Every active slot carries the sequence number of a launch of its host. */
  ghost predicate AllNumbered(base: U32, slots: seq<ProbeInfo>, launches: seq<nat>) {
    slots == [] ||
    var last := slots[|slots| - 1];
    && AllNumbered(base, slots[..|slots| - 1], launches)
    && (last.active ==> last.destIp >= base && Numbered(launches, last.destIp - base, last.seqNo))
  }

  lemma {:induction false} NoneNumbered(base: U32, slots: seq<ProbeInfo>)
    requires forall s :: 0 <= s < |slots| ==> slots[s] == EMPTY_SLOT
    ensures AllNumbered(base, slots, [])
  {
    if slots != [] {
      NoneNumbered(base, slots[..|slots| - 1]);
    }
  }

  lemma {:induction false} NumberedAt(base: U32, slots: seq<ProbeInfo>, launches: seq<nat>, s: nat)
    requires AllNumbered(base, slots, launches) && s < |slots| && slots[s].active
    ensures slots[s].destIp >= base && Numbered(launches, slots[s].destIp - base, slots[s].seqNo)
  {
    if s < |slots| - 1 {
      NumberedAt(base, slots[..|slots| - 1], launches, s);
    }
  }

  lemma {:induction false} NumberedFreed(base: U32, slots: seq<ProbeInfo>, slots': seq<ProbeInfo>, launches: seq<nat>)
    requires AllNumbered(base, slots, launches) && OnlyFreed(slots, slots')
    ensures AllNumbered(base, slots', launches)
  {
    if slots != [] {
      NumberedFreed(base, slots[..|slots| - 1], slots'[..|slots| - 1], launches);
    }
  }

  lemma {:induction false} NumberedLaunch(base: U32, slots: seq<ProbeInfo>, launches: seq<nat>, s: nat, h: nat,
                                          p: ProbeInfo)
    requires AllNumbered(base, slots, launches)
    requires p.destIp == base + h && p.seqNo == SeqAt(|launches|)
    ensures AllNumbered(base, if s < |slots| then slots[s := p] else slots, launches + [h])
  {
    if slots != [] {
      var n, last := |slots| - 1, slots[|slots| - 1];
      NumberedLaunch(base, slots[..n], launches, s, h, p);
      if s < n {
        assert slots[s := p][..n] == slots[..n][s := p];
      } else if s == n {
        assert slots[s := p][..n] == slots[..n];
        assert (launches + [h])[|launches|] == h;
      }
      if last.active {
        StillNumbered(launches, h, last.destIp - base, last.seqNo);
      }
    }
  }

  /** While at most 65535 probes have been launched, no two active slots carry the same sequence number. */
  lemma ActiveNumbersDiffer(base: U32, slots: seq<ProbeInfo>, index: seq<int>, launches: seq<nat>, s: nat, s': nat)
    requires Agree(base, slots, index) && AllNumbered(base, slots, launches) && |launches| <= 65535
    requires s < s' < |slots| && slots[s].active && slots[s'].active
    ensures slots[s].seqNo != slots[s'].seqNo
  {
    IndexExact(base, slots, index);
    NumberedAt(base, slots, launches, s);
    NumberedAt(base, slots, launches, s');
    NumbersDiffer(launches, slots[s].destIp - base, slots[s].seqNo, slots[s'].destIp - base, slots[s'].seqNo);
  }

  /** An echo of the message encoded for a batch position, coming from that position's target, is a claim of its host,
      and its round-trip time is counted from the position's own send time. */
  lemma EncodedEchoClaims(ts: Targets, id: U16, padding: nat, e: Echo, d: Datagram)
    requires Scannable(ts.base, ts.total) && e.host < ts.total
    requires d.source == EncodeEcho(ts.base, id, padding, e).target
    requires Echoes(d.bytes, EncodeEcho(ts.base, id, padding, e).bytes)
    ensures Claim(ts, d) == Some(e.host)
    ensures Fits64(e.sent.sec) ==>
      var age := Nanos(d.receivedAt) - Nanos(e.sent); RoundTrip(d) == if age < 0 then 0 else age
  {
    HostIndexOf(ts.base, ts.total, e.host);
    EchoClaimsTarget(ts, d, id, SeqAt(e.allocation), e.host, e.sent, padding);
  }

  lemma BatchExtended(tr: seq<Event>, e: Event)
    ensures Batch(tr + [e]) == if e.Launch? then Batch(tr) + [e.host] else Batch(tr)
  {
    BatchConcat(tr, [e]);
    assert Batch([e][1..]) == [];
  }

  /** Position `k` of the batch holds the slot of its `k`-th host, and the cursor is past all of them. */
  ghost predicate InSlots(queued: seq<int>, index: seq<int>, batch: seq<nat>, cursor: nat) {
    && |batch| <= |queued| && cursor <= |index|
    && forall k :: 0 <= k < |batch| ==> batch[k] < cursor && queued[k] == index[batch[k]]
  }

  lemma InSlotsLaunch(queued: seq<int>, index: seq<int>, batch: seq<nat>, cursor: nat, s: int)
    requires InSlots(queued, index, batch, cursor) && |batch| < |queued| && cursor < |index|
    ensures InSlots(queued[|batch| := s], index[cursor := s], batch + [cursor], cursor + 1)
  {
  }

  /** `done` is the beginning of the batch that the abstract scanner populates from `m`, and `batch` its launches. */
  ghost predicate Partial(cfg: PingConfig, m: State, active: nat, t: int, done: seq<Event>, batch: seq<nat>,
                          cursor: nat) {
    && cursor == m.cursor + |done|
    && PassesAll(cfg, m.found, m.cursor, t, done)
    && RoomAlong(cfg, active, cfg.sendBatch, done)
    && batch == Batch(done)
  }

  lemma PartialExtended(cfg: PingConfig, m: State, active: nat, t: int, done: seq<Event>, batch: seq<nat>, cursor: nat)
    requires Partial(cfg, m, active, t, done, batch, cursor)
    requires active + |batch| < cfg.cap && |batch| < cfg.sendBatch
    ensures var e := Pass(cfg, m.found, cursor, t);
      Partial(cfg, m, active, t, done + [e], if e.Launch? then batch + [cursor] else batch, cursor + 1)
  {
    var e := Pass(cfg, m.found, cursor, t);
    RoomExtended(cfg, active, cfg.sendBatch, done, e);
    BatchExtended(done, e);
  }

  lemma PartialComplete(cfg: PingConfig, tr: seq<Event>, active: nat, t: int, done: seq<Event>, batch: seq<nat>,
                        cursor: nat)
    requires var m := ApplyAll(START, tr);
      Legal(LimitsOf(cfg), START, tr) && active == |m.inflight| && Partial(cfg, m, active, t, done, batch, cursor)
    requires cursor <= cfg.total && |batch| <= cfg.sendBatch
    requires cursor == cfg.total || active + |batch| >= cfg.cap || |batch| == cfg.sendBatch
    ensures done == Populate(cfg, ApplyAll(START, tr), cfg.sendBatch, t) && batch == Batch(done)
  {
    RunKeepsInv(LimitsOf(cfg), START, tr);
    PopulateUnique(cfg, ApplyAll(START, tr), active, cfg.sendBatch, t, done);
  }

  /** From position `from` on, the batch still holds the slots of its hosts. */
  ghost predicate StillInSlots(queued: seq<int>, index: seq<int>, batch: seq<nat>, from: nat) {
    && |batch| <= |queued|
    && forall k :: from <= k < |batch| ==> batch[k] < |index| && queued[k] == index[batch[k]]
  }

  /** Positions `from..end` of the batch hold no slot. */
  ghost predicate Unset(queued: seq<int>, from: nat, end: nat) {
    end <= |queued| && forall k :: from <= k < end ==> queued[k] == -1
  }

  lemma UnsetOne(queued: seq<int>, from: nat, i: nat)
    requires Unset(queued, from, i) && i < |queued|
    ensures Unset(queued[i := -1], from, i + 1)
  {
  }

  /** The slot of the next unsent host is active, and freeing it does not disturb the rest of the batch. */
  lemma Withdrawable(cfg: PingConfig, slots: seq<ProbeInfo>, index: seq<int>, active: nat,
                     m: map<nat, int>, queued: seq<int>, batch: seq<nat>, i: nat)
    requires Linked(cfg.base, LimitsOf(cfg), slots, index, active, m)
    requires StillInSlots(queued, index, batch, i) && i < |batch| && Increasing(batch) && batch[i] in m
    ensures 0 <= queued[i] < |slots| && slots[queued[i]].active && slots[queued[i]].destIp == cfg.base + batch[i]
    ensures StillInSlots(queued[i := -1], index[batch[i] := -1], batch, i + 1)
  {
    LinkedClose(cfg.base, LimitsOf(cfg), slots, index, active, m, batch[i]);
  }

  /** Of a batch of `n`, `sent` got out and the buffer was full `drops` times before outcome `k`. */
  ghost predicate Sending(outcomes: seq<SendOutcome>, n: nat, k: nat, sent: nat, drops: nat) {
    && k <= |outcomes| && sent <= n
    && Delivered(outcomes, n) == sent + Delivered(outcomes[k..], n - sent)
    && Drops(outcomes, n) == drops + Drops(outcomes[k..], n - sent)
  }

  lemma SendingStarts(outcomes: seq<SendOutcome>, n: nat)
    ensures Sending(outcomes, n, 0, 0, 0)
  {
    assert outcomes[0..] == outcomes;
  }

  /** What outcome `k` changes. */
  lemma SendingTurn(outcomes: seq<SendOutcome>, n: nat, k: nat, sent: nat, drops: nat)
    requires Sending(outcomes, n, k, sent, drops) && k < |outcomes| && sent < n
    ensures match outcomes[k]
      case Sent(count) =>
        if count == 0 then sent == Delivered(outcomes, n) && drops == Drops(outcomes, n)
        else Sending(outcomes, n, k + 1, sent + Min(count, n - sent), drops)
      case WouldBlock(writable) =>
        if writable then Sending(outcomes, n, k + 1, sent, drops + 1)
        else sent == Delivered(outcomes, n) && drops + 1 == Drops(outcomes, n)
      case Refused => sent == Delivered(outcomes, n) && drops == Drops(outcomes, n)
  {
    assert outcomes[k..] != [] && outcomes[k..][0] == outcomes[k] && outcomes[k..][1..] == outcomes[k + 1..];
  }

  lemma SendingEnds(outcomes: seq<SendOutcome>, n: nat, k: nat, sent: nat, drops: nat)
    requires Sending(outcomes, n, k, sent, drops) && (k == |outcomes| || sent == n)
    ensures sent == Delivered(outcomes, n) && drops == Drops(outcomes, n)
  {
  }

  lemma OnWire<T>(wire: seq<T>, es: seq<T>, from: nat, n: nat)
    requires from + n <= |es|
    ensures wire + es[..from] + es[from..from + n] == wire + es[..from + n]
  {
  }

  function Increment(c: U32): U32 {
    if c == WORD - 1 then 0 else c + 1
  }

  /** A 32-bit counter that has counted `n` more. */
  function Add(c: U32, n: nat): U32 {
    if n == 0 then c else Increment(Add(c, n - 1))
  }

  lemma AddOne(c: U32, n: nat)
    ensures Add(c, n + 1) == Increment(Add(c, n))
  {
  }

  lemma {:induction false} AddMore(c: U32, n: nat, k: nat)
    ensures Add(Add(c, n), k) == Add(c, n + k)
  {
    if k > 0 {
      AddMore(c, n, k - 1);
    }
  }

  /** So the counter is the number modulo 2^32. */
  lemma {:induction false} AddWraps(c: U32, n: nat)
    ensures Add(c, n) == Wrap(c + n)
  {
    if n > 0 {
      AddWraps(c, n - 1);
    }
  }

  /** What is left in flight when hosts `from..end` of the batch have been withdrawn. */
  ghost function Without(m: map<nat, int>, batch: seq<nat>, from: nat, end: nat): map<nat, int>
    requires end <= |batch|
  {
    if end <= from then m else Without(m, batch, from, end - 1) - {batch[end - 1]}
  }

  lemma {:induction false} WithoutIs(m: map<nat, int>, batch: seq<nat>, from: nat, end: nat)
    requires from <= end <= |batch|
    ensures Without(m, batch, from, end) == m - AsSet(batch[from..end])
  {
    if end > from {
      WithoutIs(m, batch, from, end - 1);
      assert batch[from..end] == batch[from..end - 1] + [batch[end - 1]];
    }
  }

  /** From `m`, hosts `from..i` of the batch have been withdrawn; `left` are still in flight. */
  ghost predicate Withdrawing(m: map<nat, int>, batch: seq<nat>, from: nat, i: nat, left: map<nat, int>) {
    i <= |batch| && left == Without(m, batch, from, i)
  }

  lemma WithdrawingNext(m: map<nat, int>, batch: seq<nat>, from: nat, i: nat, left: map<nat, int>)
    requires Withdrawing(m, batch, from, i, left) && from <= i < |batch| && Increasing(batch) && batch[i] in m
    ensures batch[i] in left && Withdrawing(m, batch, from, i + 1, left - {batch[i]})
  {
    StillThere(m, batch, from, i, i);
  }

  lemma {:induction false} StillThere(m: map<nat, int>, batch: seq<nat>, from: nat, end: nat, k: nat)
    requires from <= end <= k < |batch| && Increasing(batch) && batch[k] in m
    ensures batch[k] in Without(m, batch, from, end)
    decreases end
  {
    if end > from {
      StillThere(m, batch, from, end - 1, k);
    }
  }

  /** The batch of a legal run of passes: its hosts increase, are behind the cursor and are in flight. */
  lemma BatchFacts(cfg: PingConfig, m: State, t: int)
    requires Inv(LimitsOf(cfg), m)
    ensures var evs, m' := Populate(cfg, m, cfg.sendBatch, t), ApplyAll(m, Populate(cfg, m, cfg.sendBatch, t));
      && Increasing(Batch(evs)) && |Batch(evs)| <= m'.cursor
      && (forall k :: 0 <= k < |Batch(evs)| ==> Batch(evs)[k] in m'.inflight)
  {
    var evs := Populate(cfg, m, cfg.sendBatch, t);
    PopulatePasses(cfg, m, cfg.sendBatch, t);
    PassesAreSkipsOrLaunches(cfg, m.found, m.cursor, t, evs);
    PassesBatch(m, evs, t);
  }

  lemma PassesBatch(m: State, evs: seq<Event>, t: int)
    requires Passes(evs, m.cursor, t)
    ensures var m' := ApplyAll(m, evs);
      && Increasing(Batch(evs)) && |Batch(evs)| <= m'.cursor
      && (forall k :: 0 <= k < |Batch(evs)| ==> Batch(evs)[k] in m'.inflight)
  {
    PassesState(m, evs, t);
    BatchIncreases(evs, m.cursor, t);
    SkipsAndLaunches(evs, m.cursor, t);
    assert forall k :: 0 <= k < |Batch(evs)| ==> Batch(evs)[k] in AsSet(Batch(evs));
  }

  /** The rollback of the unsent part of a batch is possible, and it is what withdrawing that part does. */
  lemma UndoBatch(cfg: PingConfig, m: State, evs: seq<Event>, t: int, sent: nat)
    requires Inv(LimitsOf(cfg), m) && evs == Populate(cfg, m, cfg.sendBatch, t) && sent < |Batch(evs)|
    ensures Legal(LimitsOf(cfg), m, evs)
    ensures var undo, m1 := Rollback(AsSet(Batch(evs)[sent..])), ApplyAll(m, evs);
      && Enabled(LimitsOf(cfg), m1, undo)
      && Apply(m1, undo).cursor + (|Batch(evs)| - sent) == m1.cursor
      && Apply(m1, undo).inflight == Without(m1.inflight, Batch(evs), sent, |Batch(evs)|)
  {
    PopulateLegal(cfg, m, cfg.sendBatch, t);
    PopulatePasses(cfg, m, cfg.sendBatch, t);
    PassesAreSkipsOrLaunches(cfg, m.found, m.cursor, t, evs);
    UndoPasses(LimitsOf(cfg), m, evs, t, sent);
  }

  lemma UndoPasses(lim: Limits, m: State, evs: seq<Event>, t: int, sent: nat)
    requires Inv(lim, m) && Passes(evs, m.cursor, t) && sent < |Batch(evs)|
    ensures var undo, m1 := Rollback(AsSet(Batch(evs)[sent..])), ApplyAll(m, evs);
      && Enabled(lim, m1, undo)
      && Apply(m1, undo).cursor + (|Batch(evs)| - sent) == m1.cursor
      && Apply(m1, undo).inflight == Without(m1.inflight, Batch(evs), sent, |Batch(evs)|)
  {
    var b := Batch(evs);
    RollbackEnabled(lim, m, evs, t, sent);
    WithoutIs(ApplyAll(m, evs).inflight, b, sent, |b|);
    assert b[sent..|b|] == b[sent..];
  }

  /** Withdrawing the unsent part of a batch is the abstract rollback. */
  lemma StandsRollback(cfg: PingConfig, tr0: seq<Event>, m: State, evs: seq<Event>, t: int, sent: nat, cursor: nat,
                       active: nat, slots: seq<ProbeInfo>, index: seq<int>)
    requires Legal(LimitsOf(cfg), START, tr0) && m == ApplyAll(START, tr0)
    requires evs == Populate(cfg, m, cfg.sendBatch, t) && sent < |Batch(evs)|
    requires cursor + (|Batch(evs)| - sent) == ApplyAll(m, evs).cursor
    requires Linked(cfg.base, LimitsOf(cfg), slots, index, active,
                    Without(ApplyAll(m, evs).inflight, Batch(evs), sent, |Batch(evs)|))
    ensures Stands(cfg.base, LimitsOf(cfg), tr0 + (evs + [Rollback(AsSet(Batch(evs)[sent..]))]), cursor, active,
                   slots, index)
  {
    var lim, undo := LimitsOf(cfg), Rollback(AsSet(Batch(evs)[sent..]));
    RunKeepsInv(lim, START, tr0);
    UndoBatch(cfg, m, evs, t, sent);
    LegalThen(lim, m, evs, undo);
    Concat(lim, START, tr0, evs + [undo]);
  }

  lemma LegalThen(lim: Limits, m: State, evs: seq<Event>, e: Event)
    requires Legal(lim, m, evs) && Enabled(lim, ApplyAll(m, evs), e)
    ensures Legal(lim, m, evs + [e]) && ApplyAll(m, evs + [e]) == Apply(ApplyAll(m, evs), e)
  {
    Concat(lim, m, evs, [e]);
    Single(lim, ApplyAll(m, evs), e);
  }

  lemma BatchRollback(tr0: seq<Event>, evs: seq<Event>, hs: set<nat>)
    ensures Batch(tr0 + (evs + [Rollback(hs)])) == Batch(tr0 + evs)
  {
    Regroup(tr0, evs, [Rollback(hs)]);
    BatchExtended(tr0 + evs, Rollback(hs));
  }

  lemma StandsBatch(cfg: PingConfig, tr0: seq<Event>, m: State, evs: seq<Event>, t: int, cursor: nat, active: nat,
                    slots: seq<ProbeInfo>, index: seq<int>, queued: seq<int>)
    requires Legal(LimitsOf(cfg), START, tr0) && m == ApplyAll(START, tr0)
    requires evs == Populate(cfg, m, cfg.sendBatch, t)
    requires Stands(cfg.base, LimitsOf(cfg), tr0 + evs, cursor, active, slots, index)
    requires InSlots(queued, index, Batch(evs), cursor)
    ensures Inv(LimitsOf(cfg), m)
    ensures Linked(cfg.base, LimitsOf(cfg), slots, index, active, ApplyAll(m, evs).inflight)
    ensures cursor == ApplyAll(m, evs).cursor && |Batch(evs)| <= cursor && Increasing(Batch(evs))
    ensures StillInSlots(queued, index, Batch(evs), 0)
    ensures forall k :: 0 <= k < |Batch(evs)| ==> Batch(evs)[k] in ApplyAll(m, evs).inflight
  {
    RunKeepsInv(LimitsOf(cfg), START, tr0);
    BatchFacts(cfg, m, t);
    Concat(LimitsOf(cfg), START, tr0, evs);
  }

  // ----- Replies -----

  /** The lists and the counters are those of the stream. */
  ghost predicate Logged(ts: Targets, notify: bool, stream: seq<Datagram>, ips: seq<U32>, hostsFound: nat,
                         results: seq<PingHostResult>, notified: seq<PingHostResult>, echoes: U32, unmatched: U32) {
    && Addresses(ts.base, ips, FoundIn(ts, stream))
    && hostsFound == |ips|
    && results == ResultsIn(ts, stream)
    && notified == (if notify then results else [])
    && echoes == Add(0, CountEchoes(stream))
    && unmatched == Add(0, CountUnmatched(ts, stream))
  }

  /** A datagram that adds no host. */
  lemma LoggedQuiet(ts: Targets, notify: bool, stream: seq<Datagram>, ips: seq<U32>, hostsFound: nat,
                    results: seq<PingHostResult>, notified: seq<PingHostResult>, echoes: U32, unmatched: U32,
                    d: Datagram)
    requires Logged(ts, notify, stream, ips, hostsFound, results, notified, echoes, unmatched)
    requires !AddsHost(ts, stream, d)
    ensures Logged(ts, notify, stream + [d], ips, hostsFound, results, notified,
                   if IsEchoReply(d) then Increment(echoes) else echoes,
                   if IsEchoReply(d) || IsShort(d) then Increment(unmatched) else unmatched)
  {
    StreamStep(ts, stream, d);
    AddOne(0, CountEchoes(stream));
    AddOne(0, CountUnmatched(ts, stream));
  }

  /** A datagram that adds a host. */
  lemma LoggedHost(ts: Targets, notify: bool, stream: seq<Datagram>, ips: seq<U32>, hostsFound: nat,
                   results: seq<PingHostResult>, notified: seq<PingHostResult>, echoes: U32, unmatched: U32,
                   d: Datagram)
    requires Logged(ts, notify, stream, ips, hostsFound, results, notified, echoes, unmatched)
    requires AddsHost(ts, stream, d)
    ensures IsEchoReply(d)
    ensures Logged(ts, notify, stream + [d], ips + [d.source], hostsFound + 1, results + [Report(d)],
                   if notify then notified + [Report(d)] else notified, Increment(echoes), unmatched)
  {
    StreamStep(ts, stream, d);
    AddOne(0, CountEchoes(stream));
  }

  lemma FoundMore(ts: Targets, stream: seq<Datagram>, d: Datagram, h: nat)
    requires AddsHost(ts, stream, d) && Claim(ts, d) == Some(h)
    ensures FoundIn(ts, stream + [d]) == FoundIn(ts, stream) + [h]
  {
    StreamStep(ts, stream, d);
  }

  /** In the counters as they are, modulo 2^32: the echo replies and the short packets are the hosts found and the
      unmatched replies. */
  lemma CountersBalance(ts: Targets, notify: bool, stream: seq<Datagram>, ips: seq<U32>, hostsFound: nat,
                        results: seq<PingHostResult>, notified: seq<PingHostResult>, echoes: U32, unmatched: U32)
    requires Logged(ts, notify, stream, ips, hostsFound, results, notified, echoes, unmatched)
    ensures Wrap(echoes + CountShort(stream)) == Wrap(hostsFound + unmatched)
  {
    ReplyAccounting(ts, stream);
    AddWraps(0, CountEchoes(stream));
    AddWraps(0, CountUnmatched(ts, stream));
    WrapTwice(CountEchoes(stream), CountShort(stream));
    WrapTwice(CountUnmatched(ts, stream), hostsFound);
  }

  /** Since `tr0` and `stream0`, the datagrams `ds` have been taken in. */
  ghost predicate TakenIn(ts: Targets, tr0: seq<Event>, stream0: seq<Datagram>, ds: seq<Datagram>,
                          tr: seq<Event>, stream: seq<Datagram>) {
    tr == tr0 + DrainEvents(ts, ApplyAll(START, tr0), ds) && stream == stream0 + ds
  }

  lemma TakenInNone(ts: Targets, tr0: seq<Event>, stream0: seq<Datagram>)
    ensures TakenIn(ts, tr0, stream0, [], tr0, stream0)
  {
  }

  lemma TakenInOne(ts: Targets, tr0: seq<Event>, stream0: seq<Datagram>, ds: seq<Datagram>, tr: seq<Event>,
                   stream: seq<Datagram>, d: Datagram)
    requires TakenIn(ts, tr0, stream0, ds, tr, stream)
    ensures TakenIn(ts, tr0, stream0, ds + [d], tr + ReplyEvents(ts, ApplyAll(START, tr), d), stream + [d])
  {
    var m := ApplyAll(START, tr0);
    var before := DrainEvents(ts, m, ds);
    var step := ReplyEvents(ts, ApplyAll(m, before), d);
    assert (ds + [d])[..|ds|] == ds;
    Concat(Limits(0, 0), START, tr0, before);
    Regroup(tr0, before, step);
    assert stream0 + ds + [d] == stream0 + (ds + [d]);
  }

  lemma PrefixGrows<T>(a: seq<T>, b: seq<T>, i: nat)
    requires i <= |b|
    ensures i < |b| ==> a + b[..i] + [b[i]] == a + b[..i + 1]
    ensures a + b[..0] == a && a + b[..|b|] == a + b
  {
  }

  /** With `done` taken in before receive call `k`, the calls to come lead to `all`. */
  ghost predicate Arriving(size: nat, receipts: seq<Receipt>, k: nat, done: seq<Datagram>, all: seq<Datagram>) {
    k <= |receipts| && all == done + Arrivals(size, receipts[k..])
  }

  lemma ArrivingStarts(size: nat, receipts: seq<Receipt>)
    ensures Arriving(size, receipts, 0, [], Arrivals(size, receipts))
  {
    assert receipts[0..] == receipts;
  }

  /** What receive call `k` adds, and whether it is the last. */
  lemma ArrivingTurn(size: nat, receipts: seq<Receipt>, k: nat, done: seq<Datagram>, all: seq<Datagram>)
    requires Arriving(size, receipts, k, done, all)
    ensures k == |receipts| || receipts[k].Failed? ==> done == all
    ensures k < |receipts| && receipts[k].Got? ==>
      var batch := Batched(size, receipts[k].datagrams);
      && (|batch| == 0 ==> done == all)
      && if |batch| == 0 || |batch| < size then done + batch == all
         else Arriving(size, receipts, k + 1, done + batch, all)
  {
    if k < |receipts| {
      assert receipts[k..][0] == receipts[k] && receipts[k..][1..] == receipts[k + 1..];
    }
  }

  // ----- Reaping -----

  lemma {:induction false} ExpiriesLaunchNone(m: map<nat, int>, now: int, timeout: int, from: nat, total: nat)
    ensures Batch(Expiries(m, now, timeout, from, total)) == []
    decreases total - from
  {
    if from < total {
      var rest := Expiries(m, now, timeout, from + 1, total);
      ExpiriesLaunchNone(m, now, timeout, from + 1, total);
      assert ([Expire(from)] + rest)[1..] == rest;
      assert [] + rest == rest;
    }
  }

  lemma ReapLaunchesNone(cfg: PingConfig, tr: seq<Event>, now: Time)
    ensures Batch(tr + ReapEvents(cfg, ApplyAll(START, tr), now)) == Batch(tr)
  {
    BatchConcat(tr, ReapEvents(cfg, ApplyAll(START, tr), now));
    ExpiriesLaunchNone(ApplyAll(START, tr).inflight, Nanos(now), TimeoutNs(cfg), 0, cfg.total);
    assert Batch(tr) + [] == Batch(tr);
  }

  /** The counter of timeouts counts the expiries of the trace. */
  ghost predicate Counted(timeouts: U32, tr: seq<Event>) {
    timeouts == Add(0, Tally(tr).expiries)
  }

  lemma StillCounted(timeouts: U32, tr: seq<Event>, n: nat, timeouts': U32, tr': seq<Event>)
    requires Counted(timeouts, tr) && timeouts' == Add(timeouts, n)
    requires Tally(tr').expiries == Tally(tr).expiries + n
    ensures Counted(timeouts', tr')
  {
    AddMore(0, Tally(tr).expiries, n);
  }

  /** The trace with the rollback of what was not sent. */
  lemma RecordRollback(cfg: PingConfig, tr0: seq<Event>, m: State, evs: seq<Event>, t: int, sent: nat, cursor: nat,
                       active: nat, slots: seq<ProbeInfo>, slots': seq<ProbeInfo>, index: seq<int>)
    returns (tr: seq<Event>)
    requires Legal(LimitsOf(cfg), START, tr0) && m == ApplyAll(START, tr0)
    requires evs == Populate(cfg, m, cfg.sendBatch, t) && sent < |Batch(evs)|
    requires cursor + (|Batch(evs)| - sent) == ApplyAll(m, evs).cursor
    requires Linked(cfg.base, LimitsOf(cfg), slots', index, active,
                    Without(ApplyAll(m, evs).inflight, Batch(evs), sent, |Batch(evs)|))
    requires AllNumbered(cfg.base, slots, Batch(tr0 + evs)) && OnlyFreed(slots, slots')
    ensures tr == tr0 + (evs + [Rollback(AsSet(Batch(evs)[sent..]))])
    ensures Stands(cfg.base, LimitsOf(cfg), tr, cursor, active, slots', index)
    ensures Batch(tr) == Batch(tr0 + evs) && AllNumbered(cfg.base, slots', Batch(tr))
  {
    tr := tr0 + (evs + [Rollback(AsSet(Batch(evs)[sent..]))]);
    NumberedFreed(cfg.base, slots, slots', Batch(tr0 + evs));
    StandsRollback(cfg, tr0, m, evs, t, sent, cursor, active, slots', index);
    BatchRollback(tr0, evs, AsSet(Batch(evs)[sent..]));
  }
}
