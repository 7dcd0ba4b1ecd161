/** What a whole ping run leaves behind: its steps, the datagrams drained, the requests on the wire and the number of
    full-buffer reports, and what always holds of them. */
module PingLogs {
  import opened Words
  import opened Wrappers
  import opened Clock
  import opened ScanModel
  import opened Expiry
  import opened Replies
  import opened PingSpec
  import opened PingRuns
  import opened Icmp
  import opened Ipv4
  import opened SendQueues
  import opened ScanLinks
  import opened ProbeTable
  import opened Sequences
  import opened PingLinks

  datatype Log = Log(trace: seq<Event>, stream: seq<Datagram>, wire: seq<Echo>, drops: nat, alive: bool)

  const NO_LOG := Log([], [], [], 0, true)

  ghost function NextLog(cfg: PingConfig, l: Log, r: Round): Log {
    var s := ApplyAll(START, l.trace);
    var b := Batch(Populate(cfg, s, cfg.sendBatch, Nanos(r.sendTime)));
    var sent := Delivered(r.outcomes, |b|);
    Log(l.trace + RoundEvents(cfg, s, r),
        if sent == |b| then l.stream + Drained(cfg, r) else l.stream,
        l.wire + EchoBatch(b, |Batch(l.trace)|, r.sendTime)[..sent],
        l.drops + Drops(r.outcomes, |b|),
        sent == |b|)
  }

  /** The log after `n` rounds. */
  ghost function RunLog(cfg: PingConfig, env: Environment, n: nat): Log {
    if n == 0 then NO_LOG else
      var l := RunLog(cfg, env, n - 1);
      if !l.alive || Over(cfg, ApplyAll(START, l.trace)) then l else NextLog(cfg, l, env(n - 1))
  }

  /** The state a round leads to. */
  lemma NextLeads(cfg: PingConfig, l: Log, r: Round)
    ensures var s, l' := ApplyAll(START, l.trace), NextLog(cfg, l, r);
      && ApplyAll(START, l'.trace) == ApplyAll(s, RoundEvents(cfg, s, r))
      && l'.alive == SendSucceeds(cfg, s, Nanos(r.sendTime), r.outcomes)
  {
    Concat(LimitsOf(cfg), START, l.trace, RoundEvents(cfg, ApplyAll(START, l.trace), r));
  }

  // ----- Counting the steps of a round -----

  lemma {:induction false} PassesTally(evs: seq<Event>, from: nat, t: int)
    requires Passes(evs, from, t)
    ensures Tally(evs) == Ledger(CountSkips(evs), |Batch(evs)|, 0, 0, 0, 0, 0)
  {
    if evs != [] {
      PassesRest(evs, from, t);
      PassesTally(evs[1..], from + 1, t);
    }
  }

  lemma SendTally(cfg: PingConfig, s: State, t: int, outcomes: seq<SendOutcome>)
    requires Inv(LimitsOf(cfg), s)
    ensures var b := Batch(Populate(cfg, s, cfg.sendBatch, t));
      Tally(SendEvents(cfg, s, t, outcomes))
      == Ledger(CountSkips(Populate(cfg, s, cfg.sendBatch, t)), |b|, |b| - Delivered(outcomes, |b|), 0, 0, 0, 0)
  {
    var evs := Populate(cfg, s, cfg.sendBatch, t);
    var b := Batch(evs);
    var sent := Delivered(outcomes, |b|);
    PopulatePasses(cfg, s, cfg.sendBatch, t);
    PassesAreSkipsOrLaunches(cfg, s.found, s.cursor, t, evs);
    PassesTally(evs, s.cursor, t);
    if sent < |b| {
      RollbackEnabled(LimitsOf(cfg), s, evs, t, sent);
      TallyExtended(evs, Rollback(AsSet(b[sent..])));
    }
  }

  lemma RoundTally(cfg: PingConfig, s: State, r: Round)
    requires Inv(LimitsOf(cfg), s)
    ensures var l, b := Tally(RoundEvents(cfg, s, r)), Batch(Populate(cfg, s, cfg.sendBatch, Nanos(r.sendTime)));
      l.refusals == 0 && l.launches == |b| && l.withdrawn == |b| - Delivered(r.outcomes, |b|)
  {
    var lim, t := LimitsOf(cfg), Nanos(r.sendTime);
    var send := SendEvents(cfg, s, t, r.outcomes);
    SendTally(cfg, s, t, r.outcomes);
    if SendSucceeds(cfg, s, t, r.outcomes) {
      SendExact(cfg, s, t, r.outcomes);
      RunKeepsInv(lim, s, send);
      var s1 := ApplyAll(s, send);
      var drain := DrainEvents(TargetsOf(cfg), s1, Drained(cfg, r));
      DrainLegal(lim, TargetsOf(cfg), s1, Drained(cfg, r));
      RepliesTally(drain);
      RunKeepsInv(lim, s1, drain);
      var reap := ReapEvents(cfg, ApplyAll(s1, drain), r.now);
      ReapExact(lim, ApplyAll(s1, drain), Nanos(r.now), TimeoutNs(cfg));
      TallyConcat(send, drain);
      TallyConcat(send + drain, reap);
    }
  }

  /** A round extends the found list by the claims among the datagrams it drains, and the probed hosts by those whose
      requests got out. */
  lemma RoundAdds(cfg: PingConfig, s: State, r: Round, stream: seq<Datagram>)
    requires Inv(LimitsOf(cfg), s) && s.found == FoundIn(TargetsOf(cfg), stream)
    ensures var s', b := ApplyAll(s, RoundEvents(cfg, s, r)), Batch(Populate(cfg, s, cfg.sendBatch, Nanos(r.sendTime)));
      var sent := Delivered(r.outcomes, |b|);
      && s'.found == FoundIn(TargetsOf(cfg), if sent == |b| then stream + Drained(cfg, r) else stream)
      && s'.probed == s.probed + AsSet(b[..sent])
  {
    var lim, ts, t := LimitsOf(cfg), TargetsOf(cfg), Nanos(r.sendTime);
    var send := SendEvents(cfg, s, t, r.outcomes);
    SendExact(cfg, s, t, r.outcomes);
    if SendSucceeds(cfg, s, t, r.outcomes) {
      RunKeepsInv(lim, s, send);
      var s1 := ApplyAll(s, send);
      var drain := DrainEvents(ts, s1, Drained(cfg, r));
      DrainLegal(lim, ts, s1, Drained(cfg, r));
      DrainFound(ts, s1, stream, Drained(cfg, r));
      RepliesKeep(s1, drain);
      RunKeepsInv(lim, s1, drain);
      ReapExact(lim, ApplyAll(s1, drain), Nanos(r.now), TimeoutNs(cfg));
      Concat(lim, s, send, drain);
      Concat(lim, s, send + drain, ReapEvents(cfg, ApplyAll(s1, drain), r.now));
    }
  }

  // ----- The wire -----

  function Hosts(es: seq<Echo>): seq<nat> {
    seq(|es|, i requires 0 <= i < |es| => es[i].host)
  }

  lemma {:induction false} EchoBatchAt(batch: seq<nat>, first: nat, sent: Time, k: nat)
    requires k < |batch|
    ensures EchoBatch(batch, first, sent)[k] == Echo(batch[k], first + k, sent)
  {
    if k < |batch| - 1 {
      EchoBatchAt(batch[..|batch| - 1], first, sent, k);
    }
  }

  /** Requests to more hosts, all of them further on. */
  lemma WireGrows(wire: seq<Echo>, batch: seq<nat>, first: nat, sent: Time, n: nat)
    requires n <= |batch| && Increasing(Hosts(wire)) && Increasing(batch)
    requires forall h, k :: h in AsSet(Hosts(wire)) && 0 <= k < |batch| ==> h < batch[k]
    ensures var wire' := wire + EchoBatch(batch, first, sent)[..n];
      Increasing(Hosts(wire')) && AsSet(Hosts(wire')) == AsSet(Hosts(wire)) + AsSet(batch[..n])
  {
    forall k | 0 <= k < |batch|
      ensures EchoBatch(batch, first, sent)[k].host == batch[k]
    {
      EchoBatchAt(batch, first, sent, k);
    }
    assert Hosts(wire + EchoBatch(batch, first, sent)[..n]) == Hosts(wire) + batch[..n];
    assert forall k :: 0 <= k < |Hosts(wire)| ==> Hosts(wire)[k] in AsSet(Hosts(wire));
  }

  // ----- What holds after every round -----

  /** The steps are legal; the found hosts are those the datagrams claim; the hosts on the wire are the probed ones,
      each once and in order; nothing is refused; nothing is withdrawn unless the run has failed. */
  ghost predicate Faithful(cfg: PingConfig, l: Log) {
    var s, ledger := ApplyAll(START, l.trace), Tally(l.trace);
    && Legal(LimitsOf(cfg), START, l.trace)
    && s.found == FoundIn(TargetsOf(cfg), l.stream)
    && Increasing(Hosts(l.wire)) && AsSet(Hosts(l.wire)) == s.probed
    && ledger.refusals == 0 && ledger.launches == |l.wire| + ledger.withdrawn
    && (l.alive ==> RollbackFree(l.trace) && ledger.withdrawn == 0)
    && (!l.alive ==> l.trace != [] && RollbackFree(l.trace[..|l.trace| - 1]) && l.trace[|l.trace| - 1].Rollback?)
    && Labelled(cfg, l.trace)
  }

  /** The reasons given for skips are the true ones. */
  ghost predicate Labelled(cfg: PingConfig, tr: seq<Event>) {
    forall e :: e in tr ==>
      && (e.Skip? ==> e.reason == if LocalSkip(cfg.net, cfg.base, e.host) then LocalAddress else AlreadyFound)
      && (e.Launch? ==> !LocalSkip(cfg.net, cfg.base, e.host))
  }

  lemma RoundLabelled(cfg: PingConfig, s: State, r: Round)
    ensures Labelled(cfg, RoundEvents(cfg, s, r))
  {
    var t := Nanos(r.sendTime);
    var send := SendEvents(cfg, s, t, r.outcomes);
    PopulatePasses(cfg, s, cfg.sendBatch, t);
    assert Labelled(cfg, Populate(cfg, s, cfg.sendBatch, t));
    if SendSucceeds(cfg, s, t, r.outcomes) {
      var drain := DrainEvents(TargetsOf(cfg), ApplyAll(s, send), Drained(cfg, r));
      DrainLegal(LimitsOf(cfg), TargetsOf(cfg), ApplyAll(s, send), Drained(cfg, r));
      ExpiriesOnly(ApplyAll(ApplyAll(s, send), drain).inflight, Nanos(r.now), TimeoutNs(cfg), 0, cfg.total);
    }
  }

  /** A failed round ends with its rollback. */
  lemma FailedRound(cfg: PingConfig, s: State, r: Round)
    requires !SendSucceeds(cfg, s, Nanos(r.sendTime), r.outcomes)
    ensures var evs := RoundEvents(cfg, s, r);
      evs != [] && RollbackFree(evs[..|evs| - 1]) && evs[|evs| - 1].Rollback?
  {
    var t := Nanos(r.sendTime);
    var pop := Populate(cfg, s, cfg.sendBatch, t);
    PopulatePasses(cfg, s, cfg.sendBatch, t);
    PassesAreSkipsOrLaunches(cfg, s.found, s.cursor, t, pop);
    assert RoundEvents(cfg, s, r)[..|pop|] == pop;
  }

  lemma NextFaithful(cfg: PingConfig, l: Log, r: Round)
    requires Faithful(cfg, l) && l.alive
    ensures Faithful(cfg, NextLog(cfg, l, r))
  {
    var lim, s, l' := LimitsOf(cfg), ApplyAll(START, l.trace), NextLog(cfg, l, r);
    var evs, b := RoundEvents(cfg, s, r), Batch(Populate(cfg, s, cfg.sendBatch, Nanos(r.sendTime)));
    RunKeepsInv(lim, START, l.trace);
    RoundExact(cfg, s, r);
    RoundTally(cfg, s, r);
    RoundAdds(cfg, s, r, l.stream);
    Concat(lim, START, l.trace, evs);
    TallyConcat(l.trace, evs);
    BatchAhead(cfg, s, Nanos(r.sendTime));
    WireGrows(l.wire, b, |Batch(l.trace)|, r.sendTime, Delivered(r.outcomes, |b|));
    NextShape(cfg, l, r);
  }

  /** A round adds true reasons, and a rollback only at the end of a failed one. */
  lemma NextShape(cfg: PingConfig, l: Log, r: Round)
    requires Labelled(cfg, l.trace) && RollbackFree(l.trace) && Inv(LimitsOf(cfg), ApplyAll(START, l.trace))
    ensures var l' := NextLog(cfg, l, r);
      && Labelled(cfg, l'.trace)
      && (l'.alive ==> RollbackFree(l'.trace))
      && (!l'.alive ==>
            l'.trace != [] && RollbackFree(l'.trace[..|l'.trace| - 1]) && l'.trace[|l'.trace| - 1].Rollback?)
  {
    var s := ApplyAll(START, l.trace);
    var evs := RoundEvents(cfg, s, r);
    RoundLabelled(cfg, s, r);
    if SendSucceeds(cfg, s, Nanos(r.sendTime), r.outcomes) {
      RoundExact(cfg, s, r);
    } else {
      FailedRound(cfg, s, r);
      assert (l.trace + evs)[..|l.trace + evs| - 1] == l.trace + evs[..|evs| - 1];
    }
  }

  /** A batch consists of hosts not probed before. */
  lemma BatchAhead(cfg: PingConfig, s: State, t: int)
    requires Inv(LimitsOf(cfg), s)
    ensures var b := Batch(Populate(cfg, s, cfg.sendBatch, t));
      Increasing(b) && forall h, k :: h in s.probed && 0 <= k < |b| ==> h < b[k]
  {
    var evs := Populate(cfg, s, cfg.sendBatch, t);
    PopulatePasses(cfg, s, cfg.sendBatch, t);
    PassesAreSkipsOrLaunches(cfg, s.found, s.cursor, t, evs);
    BatchIncreases(evs, s.cursor, t);
  }

  lemma {:induction false} RunFaithful(cfg: PingConfig, env: Environment, n: nat)
    ensures Faithful(cfg, RunLog(cfg, env, n))
  {
    if n > 0 {
      RunFaithful(cfg, env, n - 1);
      var l := RunLog(cfg, env, n - 1);
      if l.alive {
        NextFaithful(cfg, l, env(n - 1));
      }
    }
  }

  /** The requests answered and timed out, and the ways a host can have been passed over. */
  predicate Probed(w: seq<Event>, h: nat) {
    && |w| >= 2 && w[0].Launch? && w[0].host == h
    && w[1..] in {[Answer(h)], [Expire(h)], [Expire(h), Stray(h)]}
  }

  predicate PassedLocal(w: seq<Event>, h: nat) {
    w in {[Skip(h, LocalAddress)], [Skip(h, LocalAddress), Stray(h)], [Stray(h), Skip(h, LocalAddress)]}
  }

  /** A run that comes to its normal end has dealt with every host in one of three ways.  Local addresses were skipped
      and never probed.  Another host was skipped only if a reply had shown it to be up before its turn came.  All
      others were sent exactly one request, which was answered in time or timed out.  The hosts found are those
      answers and the replies for hosts with no open probe. */
  lemma PingConservation(cfg: PingConfig, env: Environment, n: nat)
    requires RunLog(cfg, env, n).alive && StoppedAt(cfg, env, n)
    ensures var l := RunLog(cfg, env, n);
      var s, ledger := ApplyAll(START, l.trace), Tally(l.trace);
      && Finished(LimitsOf(cfg), s)
      && cfg.total == ledger.skips + |l.wire|
      && |l.wire| == ledger.answers + ledger.expiries
      && |FoundIn(TargetsOf(cfg), l.stream)| == ledger.answers + ledger.strays
    ensures var l := RunLog(cfg, env, n);
      forall h: nat :: h < cfg.total ==>
        var w := About(l.trace, h);
        if LocalSkip(cfg.net, cfg.base, h) then PassedLocal(w, h) && h !in Hosts(l.wire)
        else if h in Hosts(l.wire) then Probed(w, h)
        else w == [Stray(h), Skip(h, AlreadyFound)]
  {
    var l := RunLog(cfg, env, n);
    RunFaithful(cfg, env, n);
    Totals(cfg, l);
    forall h: nat | h < cfg.total
      ensures var w := About(l.trace, h);
        if LocalSkip(cfg.net, cfg.base, h) then PassedLocal(w, h) && h !in Hosts(l.wire)
        else if h in Hosts(l.wire) then Probed(w, h)
        else w == [Stray(h), Skip(h, AlreadyFound)]
    {
      SentOrPassed(cfg, l, h);
      var w := About(l.trace, h);
      AboutIn(l.trace, h);
      NoRefusals(l.trace);
      if h in Hosts(l.wire) {
        ProbedOnce(cfg, l.trace, w, h);
      } else {
        PassedBecause(cfg, l.trace, w, h);
      }
    }
  }

  lemma ProbedOnce(cfg: PingConfig, tr: seq<Event>, w: seq<Event>, h: nat)
    requires Labelled(cfg, tr) && Settled(w, h) && forall e :: e in w ==> e in tr && !e.Refuse?
    ensures Probed(w, h) && !LocalSkip(cfg.net, cfg.base, h)
  {
    assert w[0] in w && w[1] in w && w[1] == w[1..][0];
  }

  lemma PassedBecause(cfg: PingConfig, tr: seq<Event>, w: seq<Event>, h: nat)
    requires Labelled(cfg, tr) && Passed(w, h) && forall e :: e in w ==> e in tr
    ensures if LocalSkip(cfg.net, cfg.base, h) then PassedLocal(w, h) else w == [Stray(h), Skip(h, AlreadyFound)]
  {
    assert w[0] in w && (|w| == 2 ==> w[1] in w);
    assert w == if |w| == 1 then [w[0]] else [w[0], w[1]];
  }

  lemma {:induction false} NoRefusals(tr: seq<Event>)
    requires Tally(tr).refusals == 0
    ensures forall e :: e in tr ==> !e.Refuse?
  {
    if tr != [] {
      assert tr == [tr[0]] + tr[1..];
      NoRefusals(tr[1..]);
    }
  }

  /** After any number of rounds, failed or not, at most two hosts have been skipped as local addresses. */
  lemma FewSkippedLocally(cfg: PingConfig, env: Environment, n: nat)
    ensures |SkippedLocally(RunLog(cfg, env, n).trace)| <= 2
  {
    var l, lim := RunLog(cfg, env, n), LimitsOf(cfg);
    RunFaithful(cfg, env, n);
    var tr := if l.alive then l.trace else l.trace[..|l.trace| - 1];
    var end := if l.alive then [] else [l.trace[|l.trace| - 1]];
    assert l.trace == tr + end;
    Concat(lim, START, tr, end);
    SkippedConcat(tr, end);
    SkippedOnce(lim, START, tr);
    DistinctSize(SkippedLocally(tr), LocalHosts(cfg.net, cfg.base, cfg.total));
    AtMostTwoLocal(cfg.net, cfg.base, cfg.total);
  }

  lemma OnWireInRange(cfg: PingConfig, l: Log, e: Echo)
    requires Faithful(cfg, l) && e in l.wire
    ensures e.host < cfg.total
  {
    RunKeepsInv(LimitsOf(cfg), START, l.trace);
    var i :| 0 <= i < |l.wire| && l.wire[i] == e;
    assert Hosts(l.wire)[i] in AsSet(Hosts(l.wire));
  }

  lemma Totals(cfg: PingConfig, l: Log)
    requires Faithful(cfg, l) && l.alive && Over(cfg, ApplyAll(START, l.trace))
    ensures var s, ledger := ApplyAll(START, l.trace), Tally(l.trace);
      && Finished(LimitsOf(cfg), s)
      && cfg.total == ledger.skips + |l.wire|
      && |l.wire| == ledger.answers + ledger.expiries
      && |FoundIn(TargetsOf(cfg), l.stream)| == ledger.answers + ledger.strays
  {
    RunKeepsInv(LimitsOf(cfg), START, l.trace);
    Conservation(LimitsOf(cfg), START, l.trace);
  }

  lemma SentOrPassed(cfg: PingConfig, l: Log, h: nat)
    requires Faithful(cfg, l) && l.alive && Finished(LimitsOf(cfg), ApplyAll(START, l.trace)) && h < cfg.total
    ensures if h in Hosts(l.wire) then Settled(About(l.trace, h), h) else Passed(About(l.trace, h), h)
  {
    EveryHostSettles(LimitsOf(cfg), l.trace, h);
    ProbedOrPassed(START, l.trace, h);
    assert h in AsSet(Hosts(l.wire)) <==> h in Hosts(l.wire);
    var w := About(l.trace, h);
    assert Settled(w, h) ==> w[0] in w;
  }

  /** Without rollback, the probed hosts are those with a launch in their history. */
  lemma {:induction false} ProbedOrPassed(s: State, tr: seq<Event>, h: nat)
    requires RollbackFree(tr)
    ensures h in ApplyAll(s, tr).probed <==> h in s.probed || exists e :: e in About(tr, h) && e.Launch?
    decreases |tr|
  {
    if tr != [] {
      assert tr == [tr[0]] + tr[1..];
      ProbedOrPassed(Apply(s, tr[0]), tr[1..], h);
    }
  }

  // ----- What the environment puts into the log -----

  /** Round `i`, counted from 0, is carried out and its batch gets out. */
  ghost predicate Completed(cfg: PingConfig, env: Environment, i: nat) {
    !StoppedAt(cfg, env, i) && RunLog(cfg, env, i + 1).alive
  }

  /** A round that is completed takes in, if the socket became readable, all the datagrams of the full receive calls and
      of the one after them, in order; and none otherwise. */
  lemma StreamGrows(cfg: PingConfig, env: Environment, i: nat, j: nat)
    requires Completed(cfg, env, i) && FullUpTo(cfg.recvBatch, env(i).receipts, j)
    requires var r := env(i).receipts; j < |r| ==> r[j].Failed? || |r[j].datagrams| < cfg.recvBatch
    ensures var r, stream := env(i).receipts, RunLog(cfg, env, i).stream;
      RunLog(cfg, env, i + 1).stream
      == if env(i).ready then stream + (AllOf(r[..j]) + if j < |r| && r[j].Got? then r[j].datagrams else [])
         else stream
  {
    ArrivalsExact(cfg.recvBatch, env(i).receipts, j);
  }

  /** A round that is not completed takes in none. */
  lemma StreamStays(cfg: PingConfig, env: Environment, i: nat)
    requires !Completed(cfg, env, i)
    ensures RunLog(cfg, env, i + 1).stream == RunLog(cfg, env, i).stream
  {
  }

  lemma DrainedInto(cfg: PingConfig, env: Environment, i: nat, j: nat, d: Datagram)
    requires Completed(cfg, env, i) && env(i).ready
    requires var r := env(i).receipts;
      && FullUpTo(cfg.recvBatch, r, j) && j < |r|
      && r[j].Got? && |r[j].datagrams| <= cfg.recvBatch && d in r[j].datagrams
    ensures d in RunLog(cfg, env, i + 1).stream
  {
    ArrivesIn(cfg.recvBatch, env(i).receipts, j, d);
  }

  /** Nothing is taken back from the stream or the wire. */
  lemma {:induction false} LogGrows(cfg: PingConfig, env: Environment, i: nat, n: nat)
    requires i <= n
    ensures RunLog(cfg, env, i).stream <= RunLog(cfg, env, n).stream
    ensures RunLog(cfg, env, i).wire <= RunLog(cfg, env, n).wire
    decreases n - i
  {
    if i < n {
      GrowsOn(cfg, env, i, RunLog(cfg, env, i));
      LogGrows(cfg, env, i + 1, n);
    }
  }

  lemma GrowsOn(cfg: PingConfig, env: Environment, n: nat, l: Log)
    requires l == RunLog(cfg, env, n)
    ensures var l' := RunLog(cfg, env, n + 1); l.stream <= l'.stream && l.wire <= l'.wire
  {
  }

  /** An answered host is found: if in a completed round `i` receive call `j` returns a datagram that comes from the
      target of a request on the run's wire and echoes it, and all calls before it returned full batches, the host is
      in the found list from then on. */
  lemma AnsweredIsFound(cfg: PingConfig, env: Environment, n: nat, e: Echo, i: nat, j: nat, d: Datagram)
    requires ValidConfig(cfg) && e in RunLog(cfg, env, n).wire
    requires i < n && Completed(cfg, env, i) && env(i).ready
    requires var r := env(i).receipts;
      && FullUpTo(cfg.recvBatch, r, j) && j < |r|
      && r[j].Got? && |r[j].datagrams| <= cfg.recvBatch && d in r[j].datagrams
    requires d.source == cfg.base + e.host
    requires Echoes(d.bytes, EncodeEcho(cfg.base, cfg.pid, cfg.padding, e).bytes)
    ensures d in RunLog(cfg, env, n).stream && e.host in ApplyAll(START, RunLog(cfg, env, n).trace).found
  {
    var l := RunLog(cfg, env, n);
    DrainedInto(cfg, env, i, j, d);
    LogGrows(cfg, env, i + 1, n);
    RunFaithful(cfg, env, n);
    EchoIsClaim(cfg, l, e, d);
    ClaimsAreFound(TargetsOf(cfg), l.stream);
  }

  lemma EchoIsClaim(cfg: PingConfig, l: Log, e: Echo, d: Datagram)
    requires ValidConfig(cfg) && Faithful(cfg, l) && e in l.wire && d.source == cfg.base + e.host
    requires Echoes(d.bytes, EncodeEcho(cfg.base, cfg.pid, cfg.padding, e).bytes)
    ensures Claim(TargetsOf(cfg), d) == Some(e.host)
    ensures Fits64(e.sent.sec) ==>
      var age := Nanos(d.receivedAt) - Nanos(e.sent); RoundTrip(d) == if age < 0 then 0 else age
  {
    OnWireInRange(cfg, l, e);
    HostIndexOf(cfg.base, cfg.total, e.host);
    EncodedEchoClaims(TargetsOf(cfg), cfg.pid, cfg.padding, e, d);
  }

  /** And if `p` is the first place in the stream that shows the host to be up, and the datagram there echoes the
      request, result `k` is the host's: its address, the time from the request's own send time to the datagram's
      arrival, at least 0, and the datagram's time-to-live. */
  lemma AnsweredReport(cfg: PingConfig, env: Environment, n: nat, e: Echo, p: nat) returns (k: nat)
    requires ValidConfig(cfg) && e in RunLog(cfg, env, n).wire
    requires FirstClaim(TargetsOf(cfg), RunLog(cfg, env, n).stream, p, e.host)
    requires Echoes(RunLog(cfg, env, n).stream[p].bytes, EncodeEcho(cfg.base, cfg.pid, cfg.padding, e).bytes)
    ensures var l, results := RunLog(cfg, env, n), ResultsIn(TargetsOf(cfg), RunLog(cfg, env, n).stream);
      var d := l.stream[p];
      && k < |results| == |ApplyAll(START, l.trace).found| && ApplyAll(START, l.trace).found[k] == e.host
      && results[k].ip == cfg.base + e.host && results[k].ttl == d.ttl
      && (Fits64(e.sent.sec) ==>
            var age := Nanos(d.receivedAt) - Nanos(e.sent); results[k].rtt == if age < 0 then 0 else age)
  {
    var l := RunLog(cfg, env, n);
    RunFaithful(cfg, env, n);
    EchoIsClaim(cfg, l, e, l.stream[p]);
    k := FirstReport(TargetsOf(cfg), l.stream, p, e.host);
  }

  lemma FirstReport(ts: Targets, stream: seq<Datagram>, p: nat, h: nat) returns (k: nat)
    requires FirstClaim(ts, stream, p, h)
    ensures k < |FoundIn(ts, stream)| == |ResultsIn(ts, stream)| && FoundIn(ts, stream)[k] == h
    ensures ResultsIn(ts, stream)[k] == PingHostResult(ts.base + h, RoundTrip(stream[p]), stream[p].ttl)
  {
    var firsts := FoundInOrder(ts, stream);
    ClaimsAreFound(ts, stream);
    k :| 0 <= k < |FoundIn(ts, stream)| && FoundIn(ts, stream)[k] == h;
    assert FirstClaim(ts, stream, firsts[k], h);
    assert firsts[k] == p;
  }

  // ----- The wire, request by request -----

  lemma {:induction false} BatchTally(tr: seq<Event>)
    ensures |Batch(tr)| == Tally(tr).launches
  {
    if tr != [] {
      BatchTally(tr[1..]);
    }
  }

  /** Request `k` of a run was sent in some round `i`, carries that round's send time, and is allocation `k`. */
  lemma {:induction false} WireExact(cfg: PingConfig, env: Environment, n: nat, k: nat) returns (i: nat)
    requires k < |RunLog(cfg, env, n).wire|
    ensures i < n && |RunLog(cfg, env, i).wire| <= k < |RunLog(cfg, env, i + 1).wire|
    ensures RunLog(cfg, env, n).wire[k].sent == env(i).sendTime && RunLog(cfg, env, n).wire[k].allocation == k
  {
    var m: nat := n - 1;
    var l := RunLog(cfg, env, m);
    if k < |l.wire| {
      i := WireExact(cfg, env, m, k);
      LogGrows(cfg, env, m, n);
    } else {
      i := m;
      RunFaithful(cfg, env, m);
      BatchTally(l.trace);
      NextEcho(cfg, l, env(m), k);
      assert n == m + 1;
    }
  }

  /** On the wire it is a message to its host's address with the sequence number (k mod 65535) + 1, which also carries
      the address and the send time. */
  lemma WireBytes(cfg: PingConfig, env: Environment, n: nat, k: nat)
    requires ValidConfig(cfg) && k < |RunLog(cfg, env, n).wire|
    ensures var e := RunLog(cfg, env, n).wire[k];
      && e.host < cfg.total
      && EncodeEcho(cfg.base, cfg.pid, cfg.padding, e)
         == Message(cfg.base + e.host, Request(cfg.pid, k % 65535 + 1, cfg.base + e.host, e.sent, cfg.padding))
  {
    var e := OnWireAt(cfg, env, n, k);
    EncodedAs(cfg, e, k);
  }

  lemma OnWireAt(cfg: PingConfig, env: Environment, n: nat, k: nat) returns (e: Echo)
    requires k < |RunLog(cfg, env, n).wire|
    ensures e == RunLog(cfg, env, n).wire[k] && e.host < cfg.total && e.allocation == k
  {
    e := RunLog(cfg, env, n).wire[k];
    RunFaithful(cfg, env, n);
    OnWireInRange(cfg, RunLog(cfg, env, n), e);
    var i := WireExact(cfg, env, n, k);
  }

  lemma EncodedAs(cfg: PingConfig, e: Echo, k: nat)
    requires ValidConfig(cfg) && e.host < cfg.total && e.allocation == k
    ensures EncodeEcho(cfg.base, cfg.pid, cfg.padding, e)
            == Message(cfg.base + e.host, Request(cfg.pid, k % 65535 + 1, cfg.base + e.host, e.sent, cfg.padding))
  {
    HostIndexOf(cfg.base, cfg.total, e.host);
    SeqAtCycle(k);
  }

  lemma NextEcho(cfg: PingConfig, l: Log, r: Round, k: nat)
    requires Faithful(cfg, l) && l.alive && |Batch(l.trace)| == Tally(l.trace).launches
    requires |l.wire| <= k < |NextLog(cfg, l, r).wire|
    ensures NextLog(cfg, l, r).wire[k].sent == r.sendTime && NextLog(cfg, l, r).wire[k].allocation == k
  {
    var b := Batch(Populate(cfg, ApplyAll(START, l.trace), cfg.sendBatch, Nanos(r.sendTime)));
    EchoBatchAt(b, |Batch(l.trace)|, r.sendTime, k - |l.wire|);
  }

  // ----- Timeouts -----

  /** The send time of each probe in flight is that of its request. */
  ghost predicate FlightsSent(l: Log) {
    forall h :: h in ApplyAll(START, l.trace).inflight ==> Sent(l.wire, h, ApplyAll(START, l.trace).inflight[h])
  }

  ghost predicate Sent(wire: seq<Echo>, h: nat, t: int) {
    exists k :: 0 <= k < |wire| && wire[k].host == h && Nanos(wire[k].sent) == t
  }

  /** The probes open when a round that goes through reaps: those that were, and its batch. */
  lemma RoundOpens(cfg: PingConfig, l: Log, r: Round, h: nat, t: int)
    requires Faithful(cfg, l) && FlightsSent(l) && NextLog(cfg, l, r).alive
    requires var s := ApplyAll(START, l.trace);
      var all := s.inflight + SentAt(AsSet(Batch(Populate(cfg, s, cfg.sendBatch, Nanos(r.sendTime)))),
                                     Nanos(r.sendTime));
      h in all && all[h] == t
    ensures Sent(NextLog(cfg, l, r).wire, h, t)
  {
    var m := ApplyAll(START, l.trace).inflight;
    var b := Batch(Populate(cfg, ApplyAll(START, l.trace), cfg.sendBatch, Nanos(r.sendTime)));
    var es := EchoBatch(b, |Batch(l.trace)|, r.sendTime);
    assert NextLog(cfg, l, r).wire == l.wire + es by { assert es[..|b|] == es; }
    if h in AsSet(b) {
      BatchSent(l.wire, b, |Batch(l.trace)|, r.sendTime, h);
    } else {
      assert Sent(l.wire, h, m[h]);
      StillSent(l.wire, es, h, t);
    }
  }

  lemma BatchSent(wire: seq<Echo>, b: seq<nat>, first: nat, sent: Time, h: nat)
    requires h in b
    ensures Sent(wire + EchoBatch(b, first, sent), h, Nanos(sent))
  {
    var j :| 0 <= j < |b| && b[j] == h;
    EchoBatchAt(b, first, sent, j);
    var k := |wire| + j;
    assert (wire + EchoBatch(b, first, sent))[k] == EchoBatch(b, first, sent)[j];
  }

  lemma StillSent(wire: seq<Echo>, more: seq<Echo>, h: nat, t: int)
    requires Sent(wire, h, t)
    ensures Sent(wire + more, h, t)
  {
    var k :| 0 <= k < |wire| && wire[k].host == h && Nanos(wire[k].sent) == t;
    assert (wire + more)[k] == wire[k];
  }

  /** What a round expires was open when it reaped, and over age. */
  lemma RoundExpires(cfg: PingConfig, s: State, r: Round, h: nat)
    requires Inv(LimitsOf(cfg), s) && Expire(h) in RoundEvents(cfg, s, r)
    ensures SendSucceeds(cfg, s, Nanos(r.sendTime), r.outcomes)
    ensures var all := s.inflight + SentAt(AsSet(Batch(Populate(cfg, s, cfg.sendBatch, Nanos(r.sendTime)))),
                                           Nanos(r.sendTime));
      h in all && 1000 * (Nanos(r.now) - all[h]) > cfg.timeoutMs * 1_000_000_000
  {
    var lim, ts, t := LimitsOf(cfg), TargetsOf(cfg), Nanos(r.sendTime);
    var send, b := SendEvents(cfg, s, t, r.outcomes), Batch(Populate(cfg, s, cfg.sendBatch, t));
    PopulatePasses(cfg, s, cfg.sendBatch, t);
    PassesAreSkipsOrLaunches(cfg, s.found, s.cursor, t, Populate(cfg, s, cfg.sendBatch, t));
    assert Expire(h) !in send;
    SendExact(cfg, s, t, r.outcomes);
    assert b[..|b|] == b;
    var s1 := ApplyAll(s, send);
    var drain := DrainEvents(ts, s1, Drained(cfg, r));
    DrainLegal(lim, ts, s1, Drained(cfg, r));
    RepliesKeep(s1, drain);
    ExpiriesOnly(ApplyAll(s1, drain).inflight, Nanos(r.now), TimeoutNs(cfg), 0, cfg.total);
  }

  lemma {:induction false} RunFlightsSent(cfg: PingConfig, env: Environment, n: nat)
    ensures RunLog(cfg, env, n).alive ==> FlightsSent(RunLog(cfg, env, n))
  {
    if n > 0 {
      var m: nat := n - 1;
      RunFlightsSent(cfg, env, m);
      FlightsSentOn(cfg, env, m, RunLog(cfg, env, m));
      assert n == m + 1;
    }
  }

  lemma FlightsSentOn(cfg: PingConfig, env: Environment, n: nat, l: Log)
    requires l == RunLog(cfg, env, n) && (l.alive ==> FlightsSent(l))
    ensures var l' := RunLog(cfg, env, n + 1); l'.alive ==> FlightsSent(l')
  {
    RunFaithful(cfg, env, n);
    if l.alive && NextLog(cfg, l, env(n)).alive {
      FlightsStaySent(cfg, l, env(n));
    }
  }

  lemma FlightsStaySent(cfg: PingConfig, l: Log, r: Round)
    requires Faithful(cfg, l) && FlightsSent(l) && NextLog(cfg, l, r).alive
    ensures FlightsSent(NextLog(cfg, l, r))
  {
    var s, l' := ApplyAll(START, l.trace), NextLog(cfg, l, r);
    RunKeepsInv(LimitsOf(cfg), START, l.trace);
    RoundExact(cfg, s, r);
    NextLeads(cfg, l, r);
    var m := ApplyAll(START, l'.trace).inflight;
    forall h | h in m
      ensures Sent(l'.wire, h, m[h])
    {
      RoundOpens(cfg, l, r, h, m[h]);
    }
  }

  /** A probe that timed out in a run had a request on the wire, and a round of the run ended later than the timeout
      after that request's send time. */
  lemma {:induction false} ExpiredIsOverAge(cfg: PingConfig, env: Environment, n: nat, h: nat) returns (i: nat, k: nat)
    requires Expire(h) in RunLog(cfg, env, n).trace
    ensures i < n && k < |RunLog(cfg, env, n).wire| && RunLog(cfg, env, n).wire[k].host == h
    ensures 1000 * (Nanos(env(i).now) - Nanos(RunLog(cfg, env, n).wire[k].sent)) > cfg.timeoutMs * 1_000_000_000
  {
    var m: nat := n - 1;
    var l := RunLog(cfg, env, m);
    if Expire(h) in l.trace {
      i, k := ExpiredIsOverAge(cfg, env, m, h);
      LogGrows(cfg, env, m, n);
    } else {
      i := m;
      RunFaithful(cfg, env, m);
      RunFlightsSent(cfg, env, m);
      k := ExpiredNow(cfg, l, env(m), h);
      assert n == m + 1;
    }
  }

  lemma ExpiredNow(cfg: PingConfig, l: Log, r: Round, h: nat) returns (k: nat)
    requires Faithful(cfg, l) && FlightsSent(l) && Expire(h) in NextLog(cfg, l, r).trace && Expire(h) !in l.trace
    ensures var wire := NextLog(cfg, l, r).wire;
      && k < |wire| && wire[k].host == h
      && 1000 * (Nanos(r.now) - Nanos(wire[k].sent)) > cfg.timeoutMs * 1_000_000_000
  {
    var s, t := ApplyAll(START, l.trace), Nanos(r.sendTime);
    RunKeepsInv(LimitsOf(cfg), START, l.trace);
    RoundExpires(cfg, s, r, h);
    var all := s.inflight + SentAt(AsSet(Batch(Populate(cfg, s, cfg.sendBatch, t))), t);
    RoundOpens(cfg, l, r, h, all[h]);
    k :| 0 <= k < |NextLog(cfg, l, r).wire| && NextLog(cfg, l, r).wire[k].host == h
         && Nanos(NextLog(cfg, l, r).wire[k].sent) == all[h];
  }

  // ----- Putting a round together -----

  /** Sending finds no host and times out no probe. */
  lemma SendQuiet(cfg: PingConfig, tr: seq<Event>, t: int, outcomes: seq<SendOutcome>)
    requires Legal(LimitsOf(cfg), START, tr)
    ensures var tr' := tr + SendEvents(cfg, ApplyAll(START, tr), t, outcomes);
      ApplyAll(START, tr').found == ApplyAll(START, tr).found && Tally(tr').expiries == Tally(tr).expiries
  {
    var s := ApplyAll(START, tr);
    var evs := SendEvents(cfg, s, t, outcomes);
    RunKeepsInv(LimitsOf(cfg), START, tr);
    SendExact(cfg, s, t, outcomes);
    SendTally(cfg, s, t, outcomes);
    Concat(LimitsOf(cfg), START, tr, evs);
    TallyConcat(tr, evs);
  }

  /** Nor does draining time out any. */
  lemma DrainQuiet(ts: Targets, tr: seq<Event>, stream: seq<Datagram>, ds: seq<Datagram>,
                   tr': seq<Event>, stream': seq<Datagram>)
    requires TakenIn(ts, tr, stream, ds, tr', stream')
    ensures Tally(tr').expiries == Tally(tr).expiries
  {
    var evs := DrainEvents(ts, ApplyAll(START, tr), ds);
    DrainLegal(Limits(ts.total, 0), ts, ApplyAll(START, tr), ds);
    RepliesTally(evs);
    TallyConcat(tr, evs);
  }

  /** These steps, datagrams, requests and drops are those in the log. */
  ghost predicate InLog(l: Log, trace: seq<Event>, stream: seq<Datagram>, wire: seq<Echo>, drops: U32) {
    trace == l.trace && stream == l.stream && wire == l.wire && drops == Wrap(l.drops)
  }

  /** What sending does to them. */
  ghost predicate AfterSend(cfg: PingConfig, l: Log, r: Round, trace: seq<Event>, wire: seq<Echo>, drops: U32) {
    var s := ApplyAll(START, l.trace);
    var b := Batch(Populate(cfg, s, cfg.sendBatch, Nanos(r.sendTime)));
    && trace == l.trace + SendEvents(cfg, s, Nanos(r.sendTime), r.outcomes)
    && wire == l.wire + EchoBatch(b, |Batch(l.trace)|, r.sendTime)[..Delivered(r.outcomes, |b|)]
    && drops == Add(Wrap(l.drops), Drops(r.outcomes, |b|))
  }

  lemma DropsMore(cfg: PingConfig, l: Log, r: Round, drops: U32)
    requires var b := Batch(Populate(cfg, ApplyAll(START, l.trace), cfg.sendBatch, Nanos(r.sendTime)));
      drops == Add(Wrap(l.drops), Drops(r.outcomes, |b|))
    ensures drops == Wrap(NextLog(cfg, l, r).drops)
  {
    var b := Batch(Populate(cfg, ApplyAll(START, l.trace), cfg.sendBatch, Nanos(r.sendTime)));
    AddWraps(Wrap(l.drops), Drops(r.outcomes, |b|));
    WrapTwice(l.drops, Drops(r.outcomes, |b|));
  }

  lemma RoundFailed(cfg: PingConfig, l: Log, r: Round, trace: seq<Event>, wire: seq<Echo>, drops: U32)
    requires AfterSend(cfg, l, r, trace, wire, drops)
    requires !SendSucceeds(cfg, ApplyAll(START, l.trace), Nanos(r.sendTime), r.outcomes)
    ensures InLog(NextLog(cfg, l, r), trace, l.stream, wire, drops) && !NextLog(cfg, l, r).alive
  {
    DropsMore(cfg, l, r, drops);
  }

  lemma RoundDone(cfg: PingConfig, l: Log, r: Round, tr: seq<Event>, trace: seq<Event>, stream: seq<Datagram>,
                  wire: seq<Echo>, drops: U32)
    requires AfterSend(cfg, l, r, tr, wire, drops)
    requires SendSucceeds(cfg, ApplyAll(START, l.trace), Nanos(r.sendTime), r.outcomes)
    requires TakenIn(TargetsOf(cfg), tr, l.stream, Drained(cfg, r), trace, stream)
    ensures InLog(NextLog(cfg, l, r), trace + ReapEvents(cfg, ApplyAll(START, trace), r.now), stream, wire, drops)
    ensures NextLog(cfg, l, r).alive
  {
    RoundSteps(cfg, l.trace, r, tr, trace, l.stream, stream);
    DropsMore(cfg, l, r, drops);
  }

  /** Its steps, put together. */
  lemma RoundSteps(cfg: PingConfig, tr0: seq<Event>, r: Round, tr1: seq<Event>, tr2: seq<Event>,
                   stream0: seq<Datagram>, stream: seq<Datagram>)
    requires var s := ApplyAll(START, tr0);
      && SendSucceeds(cfg, s, Nanos(r.sendTime), r.outcomes)
      && tr1 == tr0 + SendEvents(cfg, s, Nanos(r.sendTime), r.outcomes)
    requires TakenIn(TargetsOf(cfg), tr1, stream0, Drained(cfg, r), tr2, stream)
    ensures tr2 + ReapEvents(cfg, ApplyAll(START, tr2), r.now) == tr0 + RoundEvents(cfg, ApplyAll(START, tr0), r)
  {
    var lim, s := LimitsOf(cfg), ApplyAll(START, tr0);
    var send := SendEvents(cfg, s, Nanos(r.sendTime), r.outcomes);
    var drain := DrainEvents(TargetsOf(cfg), ApplyAll(START, tr1), Drained(cfg, r));
    Concat(lim, START, tr0, send);
    Concat(lim, START, tr1, drain);
    Regroup(tr0, send, drain);
    Regroup(tr0, send + drain, ReapEvents(cfg, ApplyAll(START, tr2), r.now));
  }

  /** Before the first round nothing has happened. */
  lemma NothingYet(cfg: PingConfig, notify: bool, slots: seq<ProbeInfo>, index: seq<int>) returns (l: Log)
    requires Linked(cfg.base, LimitsOf(cfg), slots, index, 0, map[]) && AllNumbered(cfg.base, slots, [])
    ensures l == NO_LOG && Stands(cfg.base, LimitsOf(cfg), l.trace, 0, 0, slots, index)
    ensures 1 == SeqAt(|Batch(l.trace)|) && AllNumbered(cfg.base, slots, Batch(l.trace))
    ensures ApplyAll(START, l.trace).found == FoundIn(TargetsOf(cfg), l.stream)
    ensures Logged(TargetsOf(cfg), notify, l.stream, [], 0, [], [], 0, 0)
    ensures Counted(0, l.trace) && InLog(NO_LOG, l.trace, l.stream, l.wire, 0)
  {
    l := NO_LOG;
  }

  // ----- The course of a run -----

  /** After `n` rounds the run is still on; the last reaping was at `last`, before the next one. */
  ghost predicate Underway(cfg: PingConfig, env: Environment, n: nat, l: Log, last: int) {
    && l == RunLog(cfg, env, n) && l.alive && Faithful(cfg, l)
    && Unexpired(ApplyAll(START, l.trace).inflight, last, TimeoutNs(cfg)) && last < Nanos(env(n).now)
  }

  /** The hosts to go, the probes in flight, and the time some probe has left. */
  ghost function Rank(cfg: PingConfig, env: Environment, n: nat, l: Log, last: int): (nat, nat, nat)
    requires Underway(cfg, env, n, l, last)
  {
    var s := ApplyAll(START, l.trace);
    RunKeepsInv(LimitsOf(cfg), START, l.trace);
    (cfg.total - s.cursor, |s.inflight|, Slack(s.inflight, last, TimeoutNs(cfg)))
  }

  lemma RunStarts(cfg: PingConfig, env: Environment)
    ensures Underway(cfg, env, 0, NO_LOG, Nanos(env(0).now) - 1)
  {
    RunFaithful(cfg, env, 0);
  }

  /** A round that goes through brings the run nearer to its end. */
  lemma RoundNearer(cfg: PingConfig, env: Environment, n: nat, l: Log, last: int)
    requires CanProgress(cfg) && Advancing(env) && !Over(cfg, ApplyAll(START, l.trace))
    requires Underway(cfg, env, n, l, last)
    ensures NextLog(cfg, l, env(n)) == RunLog(cfg, env, n + 1)
    ensures var l', now := NextLog(cfg, l, env(n)), Nanos(env(n).now);
      l'.alive ==>
        && Underway(cfg, env, n + 1, l', now)
        && var r, r' := Rank(cfg, env, n, l, last), Rank(cfg, env, n + 1, l', now);
          r'.0 < r.0 || (r'.0 == r.0 && (r'.1 < r.1 || (r'.1 == r.1 && r'.2 < r.2)))
  {
    var lim, s, r := LimitsOf(cfg), ApplyAll(START, l.trace), env(n);
    NextFaithful(cfg, l, r);
    if NextLog(cfg, l, r).alive {
      RunKeepsInv(lim, START, l.trace);
      RoundProgresses(cfg, s, last, r);
      RoundExact(cfg, s, r);
      Concat(lim, START, l.trace, RoundEvents(cfg, s, r));
    }
  }

  ghost predicate StoppedAt(cfg: PingConfig, env: Environment, n: nat) {
    var l := RunLog(cfg, env, n);
    !l.alive || Over(cfg, ApplyAll(START, l.trace))
  }

  ghost predicate Halts(cfg: PingConfig, env: Environment) {
    exists n :: StoppedAt(cfg, env, n)
  }

  /** A run that has stopped stays as it is. */
  lemma {:induction false} StopsForGood(cfg: PingConfig, env: Environment, n: nat, k: nat)
    requires StoppedAt(cfg, env, n) && n <= k
    ensures RunLog(cfg, env, k) == RunLog(cfg, env, n)
  {
    if n < k {
      var m: nat := k - 1;
      StopsForGood(cfg, env, n, m);
      StaysStopped(cfg, env, n, m);
      assert k == m + 1;
    }
  }

  lemma StaysStopped(cfg: PingConfig, env: Environment, n: nat, m: nat)
    requires StoppedAt(cfg, env, n) && RunLog(cfg, env, m) == RunLog(cfg, env, n)
    ensures RunLog(cfg, env, m + 1) == RunLog(cfg, env, n)
  {
  }

  ghost predicate NotStoppedBefore(cfg: PingConfig, env: Environment, n: nat) {
    forall k: nat :: k < n ==> !StoppedAt(cfg, env, k)
  }

  /** The run has come to round `k` with log `l` without stopping before. */
  ghost predicate OnCourse(cfg: PingConfig, env: Environment, k: nat, l: Log) {
    l == RunLog(cfg, env, k) && NotStoppedBefore(cfg, env, k)
  }

  lemma CourseStarts(cfg: PingConfig, env: Environment)
    ensures OnCourse(cfg, env, 0, NO_LOG)
  {
  }

  /** If it does not stop there either, it goes on, and the round at which it stops is still to come. */
  lemma CourseGoesOn(cfg: PingConfig, env: Environment, k: nat, l: Log, end: nat)
    requires OnCourse(cfg, env, k, l) && l.alive && !Over(cfg, ApplyAll(START, l.trace)) && StoppedAt(cfg, env, end)
    ensures k < end && OnCourse(cfg, env, k + 1, NextLog(cfg, l, env(k)))
  {
    if end <= k {
      StopsForGood(cfg, env, end, k);
    }
  }

  lemma CourseEnds(cfg: PingConfig, env: Environment, k: nat, l: Log)
    requires OnCourse(cfg, env, k, l) && (!l.alive || Over(cfg, ApplyAll(START, l.trace)))
    ensures l == RunLog(cfg, env, k) && StoppedAt(cfg, env, k) && NotStoppedBefore(cfg, env, k)
  {
  }

  /** With room for a probe and for a packet, and a clock that advances, every run comes to an end, whatever is sent,
      received or lost. */
  lemma {:induction false} Terminates(cfg: PingConfig, env: Environment, n: nat, l: Log, last: int)
    requires CanProgress(cfg) && Advancing(env) && Underway(cfg, env, n, l, last)
    ensures Halts(cfg, env)
    decreases Rank(cfg, env, n, l, last).0, Rank(cfg, env, n, l, last).1, Rank(cfg, env, n, l, last).2
  {
    if Over(cfg, ApplyAll(START, l.trace)) {
      assert StoppedAt(cfg, env, n);
    } else {
      RoundNearer(cfg, env, n, l, last);
      var l' := NextLog(cfg, l, env(n));
      if l'.alive {
        Terminates(cfg, env, n + 1, l', Nanos(env(n).now));
      } else {
        assert StoppedAt(cfg, env, n + 1);
      }
    }
  }

  /** With no room for a probe or for a packet and hosts to scan, no run ends or probes a host. */
  lemma {:induction false} Stalls(cfg: PingConfig, env: Environment, n: nat)
    requires !CanProgress(cfg)
    ensures var l := RunLog(cfg, env, n);
      l.alive && ApplyAll(START, l.trace).cursor == 0 && ApplyAll(START, l.trace).inflight == map[]
  {
    if n > 0 {
      var m: nat := n - 1;
      Stalls(cfg, env, m);
      StallsOn(cfg, env, m, RunLog(cfg, env, m));
      assert n == m + 1;
    }
  }

  lemma StallsOn(cfg: PingConfig, env: Environment, n: nat, l: Log)
    requires !CanProgress(cfg) && l == RunLog(cfg, env, n) && l.alive
    requires ApplyAll(START, l.trace).cursor == 0 && ApplyAll(START, l.trace).inflight == map[]
    ensures var l' := RunLog(cfg, env, n + 1);
      l'.alive && ApplyAll(START, l'.trace).cursor == 0 && ApplyAll(START, l'.trace).inflight == map[]
  {
    StalledRound(cfg, ApplyAll(START, l.trace), env(n));
    NextLeads(cfg, l, env(n));
  }

  function Idle(i: nat): Round {
    Round(Timespec(i, 0), [], false, [], Timespec(i, 0))
  }

  /** A configuration ends every run with an advancing clock if and only if it has no hosts, or room for at least one
      probe and one packet per batch. */
  lemma HaltsExactly(cfg: PingConfig)
    ensures CanProgress(cfg) <==> forall env: Environment :: Advancing(env) ==> Halts(cfg, env)
  {
    if CanProgress(cfg) {
      forall env: Environment | Advancing(env)
        ensures Halts(cfg, env)
      {
        RunStarts(cfg, env);
        Terminates(cfg, env, 0, NO_LOG, Nanos(env(0).now) - 1);
      }
    } else {
      var env: Environment := (i: nat) => Idle(i);
      forall n
        ensures !StoppedAt(cfg, env, n)
      {
        Stalls(cfg, env, n);
      }
      assert Advancing(env) && !Halts(cfg, env);
    }
  }

  // ----- Results -----

  datatype PingScanResult = PingScanResult(hosts: seq<PingHostResult>, txDrops: U32, echoReplies: U32,
                                           unmatchedReplies: U32, probeTimeouts: U32)

  /** A round that is carried out adds the number of full-buffer reports that sending its batch met with. */
  lemma DropsExact(cfg: PingConfig, env: Environment, n: nat)
    ensures RunLog(cfg, env, 0).drops == 0
    ensures var l := RunLog(cfg, env, n);
      var b := Batch(Populate(cfg, ApplyAll(START, l.trace), cfg.sendBatch, Nanos(env(n).sendTime)));
      RunLog(cfg, env, n + 1).drops
      == l.drops + if StoppedAt(cfg, env, n) then 0 else Drops(env(n).outcomes, |b|)
  {
  }

  /** What a run returns, in terms of what was found, drained and sent: one result for each host found, in order; and
      the four counts, modulo 2^32. */
  lemma ResultExact(cfg: PingConfig, l: Log)
    requires Faithful(cfg, l)
    ensures var r, found := ResultOf(TargetsOf(cfg), l), ApplyAll(START, l.trace).found;
      && r.hosts == ResultsIn(TargetsOf(cfg), l.stream) && |r.hosts| == |found|
      && (forall k :: 0 <= k < |found| ==> r.hosts[k].ip == cfg.base + found[k])
      && r.echoReplies == CountEchoes(l.stream) % 0x1_0000_0000
      && r.probeTimeouts == Tally(l.trace).expiries % 0x1_0000_0000
      && r.txDrops == l.drops % 0x1_0000_0000
      && (r.echoReplies + CountShort(l.stream)) % 0x1_0000_0000
         == (|r.hosts| + r.unmatchedReplies) % 0x1_0000_0000
  {
    ResultsName(TargetsOf(cfg), l.stream);
    AddWraps(0, Tally(l.trace).expiries);
    RepliesCounted(TargetsOf(cfg), l.stream);
  }

  lemma RepliesCounted(ts: Targets, stream: seq<Datagram>)
    ensures Add(0, CountEchoes(stream)) == CountEchoes(stream) % 0x1_0000_0000
    ensures (Add(0, CountEchoes(stream)) + CountShort(stream)) % 0x1_0000_0000
            == (|FoundIn(ts, stream)| + Add(0, CountUnmatched(ts, stream))) % 0x1_0000_0000
  {
    AddWraps(0, CountEchoes(stream));
    AddWraps(0, CountUnmatched(ts, stream));
    ReplyAccounting(ts, stream);
    WrapTwice(CountEchoes(stream), CountShort(stream));
    WrapTwice(CountUnmatched(ts, stream), |FoundIn(ts, stream)|);
  }

  /** What a run returns, worked out from its log. */
  ghost function ResultOf(ts: Targets, l: Log): PingScanResult {
    PingScanResult(ResultsIn(ts, l.stream), Wrap(l.drops), Add(0, CountEchoes(l.stream)),
                   Add(0, CountUnmatched(ts, l.stream)), Add(0, Tally(l.trace).expiries))
  }
}
