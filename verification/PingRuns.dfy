/** Whole ping runs over the abstract scanner: rounds of send, drain and reap, and when they come to an end. */
module PingRuns {
  import opened Clock
  import opened ScanModel
  import opened Expiry
  import opened Replies
  import opened PingSpec

  /** One return of the receive call. */
  datatype Receipt = Failed | Got(datagrams: seq<Datagram>)

  /** What the environment contributes to one round: two clock readings, the send call's returns, whether the socket
      became readable, and the receive call's returns. */
  datatype Round = Round(sendTime: Time, outcomes: seq<SendOutcome>, ready: bool, receipts: seq<Receipt>, now: Time)

  /** The datagrams of one receive call, which never returns more than it was asked for. */
  function Batched(size: nat, ds: seq<Datagram>): seq<Datagram> {
    if |ds| <= size then ds else ds[..size]
  }

  /** The datagrams drained: batches are read until one fails, is empty or is not full. */
  function Arrivals(size: nat, receipts: seq<Receipt>): seq<Datagram> {
    if receipts == [] || receipts[0].Failed? then [] else
      var batch := Batched(size, receipts[0].datagrams);
      if batch == [] || |batch| < size then batch else batch + Arrivals(size, receipts[1..])
  }

  function Drained(cfg: PingConfig, r: Round): seq<Datagram> {
    if r.ready then Arrivals(cfg.recvBatch, r.receipts) else []
  }

  /** What these calls returned, one after the other. */
  ghost function AllOf(receipts: seq<Receipt>): seq<Datagram> {
    if receipts == [] then [] else
      (if receipts[0].Got? then receipts[0].datagrams else []) + AllOf(receipts[1..])
  }

  /** The first `j` calls returned full batches. */
  ghost predicate FullUpTo(size: nat, receipts: seq<Receipt>, j: nat) {
    j <= |receipts| && forall i :: 0 <= i < j ==> receipts[i].Got? && |receipts[i].datagrams| == size
  }

  /** Everything in the full batches and in the one after them arrives; and nothing else, if that one is not full. */
  lemma {:induction false} ArrivalsExact(size: nat, receipts: seq<Receipt>, j: nat)
    requires FullUpTo(size, receipts, j)
    requires j < |receipts| ==> receipts[j].Failed? || |receipts[j].datagrams| < size
    ensures Arrivals(size, receipts)
            == AllOf(receipts[..j]) + if j < |receipts| && receipts[j].Got? then receipts[j].datagrams else []
  {
    if j > 0 {
      var rest := receipts[1..];
      assert forall i :: 0 <= i < |rest| ==> rest[i] == receipts[i + 1];
      if size > 0 {
        ArrivalsExact(size, rest, j - 1);
        assert receipts[..j] == [receipts[0]] + rest[..j - 1];
      } else {
        NoneInFull(receipts[..j]);
      }
    }
  }

  lemma {:induction false} NoneInFull(receipts: seq<Receipt>)
    requires forall r :: r in receipts ==> r == Got([])
    ensures AllOf(receipts) == []
  {
    if receipts != [] {
      assert receipts[0] in receipts && forall r :: r in receipts[1..] ==> r in receipts;
      NoneInFull(receipts[1..]);
    }
  }

  lemma {:induction false} ArrivesIn(size: nat, receipts: seq<Receipt>, j: nat, d: Datagram)
    requires FullUpTo(size, receipts, j) && j < |receipts|
    requires receipts[j].Got? && |receipts[j].datagrams| <= size && d in receipts[j].datagrams
    ensures d in Arrivals(size, receipts)
  {
    if j > 0 {
      assert forall i :: 0 < i < |receipts| ==> receipts[1..][i - 1] == receipts[i];
      ArrivesIn(size, receipts[1..], j - 1, d);
    }
  }

  ghost function ReapEvents(cfg: PingConfig, s: State, now: Time): seq<Event> {
    Expiries(s.inflight, Nanos(now), TimeoutNs(cfg), 0, cfg.total)
  }

  ghost function RoundEvents(cfg: PingConfig, s: State, r: Round): seq<Event> {
    var send := SendEvents(cfg, s, Nanos(r.sendTime), r.outcomes);
    if !SendSucceeds(cfg, s, Nanos(r.sendTime), r.outcomes) then send else
      var drain := DrainEvents(TargetsOf(cfg), ApplyAll(s, send), Drained(cfg, r));
      send + drain + ReapEvents(cfg, ApplyAll(ApplyAll(s, send), drain), r.now)
  }

  /** In seconds: a probe expires exactly when a thousand times its age exceeds the timeout's number of seconds. */
  lemma TimeoutExact(cfg: PingConfig, s: State, now: Time, h: nat)
    requires Inv(LimitsOf(cfg), s) && h in s.inflight
    ensures var evs, age := ReapEvents(cfg, s, now), Nanos(now) - s.inflight[h];
      && (Expire(h) in evs <==> 1000 * age > cfg.timeoutMs * 1_000_000_000)
      && (h in ApplyAll(s, evs).inflight <==> 1000 * age <= cfg.timeoutMs * 1_000_000_000)
  {
    ReapByAge(LimitsOf(cfg), s, Nanos(now), TimeoutNs(cfg), h);
  }

  predicate Over(cfg: PingConfig, s: State) {
    s.cursor >= cfg.total && |s.inflight| == 0
  }

  /** A completed round is a legal run of steps without rollback; it leaves no probe over age, and any probe still in
      flight was already in flight or was launched by it. */
  lemma RoundExact(cfg: PingConfig, s: State, r: Round)
    requires Inv(LimitsOf(cfg), s)
    ensures var evs := RoundEvents(cfg, s, r);
      && Legal(LimitsOf(cfg), s, evs)
      && Inv(LimitsOf(cfg), ApplyAll(s, evs))
    ensures SendSucceeds(cfg, s, Nanos(r.sendTime), r.outcomes) ==>
      var evs, b := RoundEvents(cfg, s, r), Batch(Populate(cfg, s, cfg.sendBatch, Nanos(r.sendTime)));
      var s' := ApplyAll(s, evs);
      && RollbackFree(evs)
      && s'.cursor == s.cursor + |Populate(cfg, s, cfg.sendBatch, Nanos(r.sendTime))|
      && Unexpired(s'.inflight, Nanos(r.now), TimeoutNs(cfg))
      && (forall h :: h in s'.inflight ==>
            && h in s.inflight + SentAt(AsSet(b), Nanos(r.sendTime))
            && s'.inflight[h] == (s.inflight + SentAt(AsSet(b), Nanos(r.sendTime)))[h])
  {
    var lim, t := LimitsOf(cfg), Nanos(r.sendTime);
    var send := SendEvents(cfg, s, t, r.outcomes);
    SendExact(cfg, s, t, r.outcomes);
    if SendSucceeds(cfg, s, t, r.outcomes) {
      var b := Batch(Populate(cfg, s, cfg.sendBatch, t));
      assert b[..|b|] == b;
      var s1 := ApplyAll(s, send);
      var drain := DrainEvents(TargetsOf(cfg), s1, Drained(cfg, r));
      RunKeepsInv(lim, s, send);
      DrainLegal(lim, TargetsOf(cfg), s1, Drained(cfg, r));
      RepliesKeep(s1, drain);
      RepliesTally(drain);
      RunKeepsInv(lim, s1, drain);
      var s2 := ApplyAll(s1, drain);
      ReapExact(lim, s2, Nanos(r.now), TimeoutNs(cfg));
      Concat(lim, s, send, drain);
      Concat(lim, s, send + drain, ReapEvents(cfg, s2, r.now));
    }
    RunKeepsInv(lim, s, RoundEvents(cfg, s, r));
  }

  // ----- Termination -----

  type Environment = nat -> Round

  /** The clock read at the end of each round is later than the one before. */
  ghost predicate Advancing(env: Environment) {
    forall i: nat, j: nat :: j == i + 1 ==> Nanos(env(i).now) < Nanos(env(j).now)
  }

  predicate CanProgress(cfg: PingConfig) {
    cfg.total == 0 || (cfg.cap >= 1 && cfg.sendBatch >= 1)
  }

  ghost predicate MeasureDrops(cfg: PingConfig, s: State, last: int, s': State, now: int)
    requires Unexpired(s.inflight, last, TimeoutNs(cfg)) && Unexpired(s'.inflight, now, TimeoutNs(cfg))
  {
    || s.cursor < s'.cursor
    || (s.cursor == s'.cursor && |s'.inflight| < |s.inflight|)
    || (s.cursor == s'.cursor && |s'.inflight| == |s.inflight|
        && Slack(s'.inflight, now, TimeoutNs(cfg)) < Slack(s.inflight, last, TimeoutNs(cfg)))
  }

  /** A round either moves the cursor, or closes a probe, or takes time from a probe in flight. */
  lemma RoundProgresses(cfg: PingConfig, s: State, last: int, r: Round)
    requires Inv(LimitsOf(cfg), s) && CanProgress(cfg) && !Over(cfg, s)
    requires Unexpired(s.inflight, last, TimeoutNs(cfg)) && last < Nanos(r.now)
    requires SendSucceeds(cfg, s, Nanos(r.sendTime), r.outcomes)
    ensures var s' := ApplyAll(s, RoundEvents(cfg, s, r));
      && Unexpired(s'.inflight, Nanos(r.now), TimeoutNs(cfg))
      && MeasureDrops(cfg, s, last, s', Nanos(r.now))
  {
    RoundExact(cfg, s, r);
    var s', t := ApplyAll(s, RoundEvents(cfg, s, r)), Nanos(r.sendTime);
    if s'.cursor == s.cursor {
      assert Populate(cfg, s, cfg.sendBatch, t) == [];
      assert s.inflight + SentAt(AsSet(Batch([])), t) == s.inflight;
      SlackDrops(s.inflight, s'.inflight, last, Nanos(r.now), TimeoutNs(cfg));
    }
  }

  /** With no room for a probe or for a packet, a round changes nothing but the found list. */
  lemma StalledRound(cfg: PingConfig, s: State, r: Round)
    requires !CanProgress(cfg) && s.inflight == map[]
    ensures SendSucceeds(cfg, s, Nanos(r.sendTime), r.outcomes)
    ensures var s' := ApplyAll(s, RoundEvents(cfg, s, r));
      s'.cursor == s.cursor && s'.inflight == map[] && s'.probed == s.probed
  {
    var drain := DrainEvents(TargetsOf(cfg), s, Drained(cfg, r));
    var s2 := ApplyAll(s, drain);
    DrainLegal(LimitsOf(cfg), TargetsOf(cfg), s, Drained(cfg, r));
    RepliesKeep(s, drain);
    NothingToReap(Nanos(r.now), TimeoutNs(cfg), 0, cfg.total);
    assert s2.inflight == map[];
    assert [] + drain + [] == drain;
  }
}
