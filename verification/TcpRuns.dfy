/** The TCP scan, round by round, over the abstract scanner: no slot table and no file descriptors. */
module TcpRuns {
  import opened Words
  import opened Wrappers
  import opened Clock
  import opened Icmp
  import opened Ipv4
  import opened ScanModel
  import opened Expiry

  /** `cap` and `batch` are already limited to `total`. */
  datatype TcpConfig = TcpConfig(base: U32, total: nat, net: NetworkInterface, port: U16, cap: nat, timeoutMs: U32,
                                 batch: nat)

  predicate ValidConfig(cfg: TcpConfig) {
    Scannable(cfg.base, cfg.total) && cfg.cap <= cfg.total
  }

  function LimitsOf(cfg: TcpConfig): Limits {
    Limits(cfg.total, cfg.cap)
  }

  function TimeoutNs(cfg: TcpConfig): int {
    cfg.timeoutMs * NANOSECONDS_PER_MILLISECOND
  }

  // ----- Starting connections -----

  /** What the system calls of one attempt return: the descriptor the kernel would like to give out, if any; whether
      the socket can be made non-blocking, connected or put in progress, and registered; and the time read last. */
  datatype Attempt = Attempt(socket: Option<nat>, nonBlocking: bool, connected: bool, registered: bool, at: Time)

  const NO_SOCKET := Attempt(None, false, false, false, Timespec(0, 0))

  predicate Succeeds(a: Attempt) {
    a.socket.Some? && a.nonBlocking && a.connected && a.registered
  }

  /** Once the script is used up, no more sockets are to be had. */
  function First(attempts: seq<Attempt>): Attempt {
    if attempts == [] then NO_SOCKET else attempts[0]
  }

  function Rest(attempts: seq<Attempt>): seq<Attempt> {
    if attempts == [] then [] else attempts[1..]
  }

  /** What happens to host `h` when the cursor passes it. */
  function Try(cfg: TcpConfig, h: nat, a: Attempt): Event {
    if LocalSkip(cfg.net, cfg.base, h) then Skip(h, LocalAddress)
    else if Succeeds(a) then Launch(h, Nanos(a.at))
    else Skip(h, StartFailed)
  }

  /** The cursor moves on until the range, the limit of open connections or the batch is exhausted; skipped hosts count
      towards the batch. */
  function Initiate(cfg: TcpConfig, cursor: nat, active: nat, attempts: seq<Attempt>, room: nat): seq<Event>
    decreases room
  {
    if cursor >= cfg.total || active >= cfg.cap || room == 0 then [] else
      var e := Try(cfg, cursor, First(attempts));
      [e] + Initiate(cfg, cursor + 1, if e.Launch? then active + 1 else active,
                     if LocalSkip(cfg.net, cfg.base, cursor) then attempts else Rest(attempts), room - 1)
  }

  // ----- Polling -----

  /** The connection to `peer` has become writable or failed; `error` is what the socket then reports. */
  datatype Ready = Ready(peer: U32, error: int, at: Time)

  datatype TcpHostResult = TcpHostResult(ip: U32, port: U16, rtt: nat)

  predicate InFlightPeer(base: U32, m: map<nat, int>, peer: U32) {
    peer >= base && peer - base in m
  }

  function Outcome(base: U32, r: Ready): Event
    requires r.peer >= base
  {
    if r.error == 0 then Answer(r.peer - base) else Refuse(r.peer - base)
  }

  /** At most `n` connections in flight are reported, each once. */
  function PollEvents(base: U32, m: map<nat, int>, polled: seq<Ready>, n: nat): seq<Event> {
    if polled == [] || n == 0 then [] else
      var r := polled[0];
      if InFlightPeer(base, m, r.peer)
      then [Outcome(base, r)] + PollEvents(base, m - {r.peer - base}, polled[1..], n - 1)
      else PollEvents(base, m, polled[1..], n)
  }

  function RoundTrip(at: Time, sentAt: int): nat {
    var diff := Nanos(at) - sentAt;
    if diff < 0 then 0 else diff
  }

  /** The reports for those that opened. */
  function PollResults(cfg: TcpConfig, m: map<nat, int>, polled: seq<Ready>, n: nat): seq<TcpHostResult> {
    if polled == [] || n == 0 then [] else
      var r := polled[0];
      if InFlightPeer(cfg.base, m, r.peer) then
        var rest := PollResults(cfg, m - {r.peer - cfg.base}, polled[1..], n - 1);
        if r.error == 0 then [TcpHostResult(r.peer, cfg.port, RoundTrip(r.at, m[r.peer - cfg.base]))] + rest else rest
      else PollResults(cfg, m, polled[1..], n)
  }

  // ----- Rounds -----

  datatype TcpRound = TcpRound(attempts: seq<Attempt>, polled: seq<Ready>, now: Time)

  type TcpEnvironment = nat -> TcpRound

  datatype TcpLog = TcpLog(trace: seq<Event>, results: seq<TcpHostResult>)

  const NO_LOG := TcpLog([], [])

  ghost function ReapEvents(cfg: TcpConfig, s: State, now: Time): seq<Event> {
    Expiries(s.inflight, Nanos(now), TimeoutNs(cfg), 0, cfg.total)
  }

  ghost function Initiated(cfg: TcpConfig, tr: seq<Event>, r: TcpRound): seq<Event> {
    var s := ApplyAll(START, tr);
    tr + Initiate(cfg, s.cursor, |s.inflight|, r.attempts, cfg.batch)
  }

  ghost function Polled(cfg: TcpConfig, tr: seq<Event>, r: TcpRound): seq<Event> {
    tr + PollEvents(cfg.base, ApplyAll(START, tr).inflight, r.polled, cfg.batch)
  }

  ghost function Reaped(cfg: TcpConfig, tr: seq<Event>, r: TcpRound): seq<Event> {
    tr + ReapEvents(cfg, ApplyAll(START, tr), r.now)
  }

  ghost function NextLog(cfg: TcpConfig, l: TcpLog, r: TcpRound): TcpLog {
    var tr := Initiated(cfg, l.trace, r);
    TcpLog(Reaped(cfg, Polled(cfg, tr, r), r),
           l.results + PollResults(cfg, ApplyAll(START, tr).inflight, r.polled, cfg.batch))
  }

  /** A connection expires exactly when a thousand times its age exceeds the timeout's number of seconds. */
  lemma TimeoutExact(cfg: TcpConfig, s: State, now: Time, h: nat)
    requires Inv(LimitsOf(cfg), s) && h in s.inflight
    ensures var evs, age := ReapEvents(cfg, s, now), Nanos(now) - s.inflight[h];
      && (Expire(h) in evs <==> 1000 * age > cfg.timeoutMs * 1_000_000_000)
      && (h in ApplyAll(s, evs).inflight <==> 1000 * age <= cfg.timeoutMs * 1_000_000_000)
  {
    ReapByAge(LimitsOf(cfg), s, Nanos(now), TimeoutNs(cfg), h);
  }

  predicate Over(cfg: TcpConfig, s: State) {
    s.cursor >= cfg.total && |s.inflight| == 0
  }

  /** The log after `n` rounds. */
  ghost function RunLog(cfg: TcpConfig, env: TcpEnvironment, n: nat): TcpLog {
    if n == 0 then NO_LOG else
      var l := RunLog(cfg, env, n - 1);
      if Over(cfg, ApplyAll(START, l.trace)) then l else NextLog(cfg, l, env(n - 1))
  }

  // ----- What holds after every round -----

  /** A host is skipped only as a local address or because it could not be tried; nothing is rolled back, and no host
      is found without an open connection. */
  predicate TcpStep(e: Event) {
    match e
    case Skip(_, reason) => reason != AlreadyFound
    case Launch(_, _) | Answer(_) | Refuse(_) | Expire(_) => true
    case Rollback(_) | Stray(_) => false
  }

  ghost predicate TcpSteps(tr: seq<Event>) {
    forall e :: e in tr ==> TcpStep(e)
  }

  ghost predicate FoundProbed(s: State) {
    forall h :: h in s.found ==> h in s.probed
  }

  lemma {:induction false} StepsKeepFoundProbed(lim: Limits, s: State, tr: seq<Event>)
    requires FoundProbed(s) && Inv(lim, s) && Legal(lim, s, tr) && TcpSteps(tr)
    ensures FoundProbed(ApplyAll(s, tr))
    decreases |tr|
  {
    if tr != [] {
      assert tr == [tr[0]] + tr[1..] && TcpStep(tr[0]);
      StepKeepsInv(lim, s, tr[0]);
      StepsKeepFoundProbed(lim, Apply(s, tr[0]), tr[1..]);
    }
  }

  lemma {:induction false} InitiateLegal(cfg: TcpConfig, s: State, attempts: seq<Attempt>, room: nat)
    requires Inv(LimitsOf(cfg), s) && FoundProbed(s)
    ensures var evs := Initiate(cfg, s.cursor, |s.inflight|, attempts, room);
      && Legal(LimitsOf(cfg), s, evs) && TcpSteps(evs) && ApplyAll(s, evs).cursor == s.cursor + |evs|
      && ApplyAll(s, evs).found == s.found && (evs == [] ==> ApplyAll(s, evs) == s)
    decreases room
  {
    if !(s.cursor >= cfg.total || |s.inflight| >= cfg.cap || room == 0) {
      var e := Try(cfg, s.cursor, First(attempts));
      var more := if LocalSkip(cfg.net, cfg.base, s.cursor) then attempts else Rest(attempts);
      assert Enabled(LimitsOf(cfg), s, e);
      StepKeepsInv(LimitsOf(cfg), s, e);
      if e.Launch? {
        Extends(s.inflight, s.cursor, e.sentAt);
      }
      InitiateLegal(cfg, Apply(s, e), more, room - 1);
      var rest := Initiate(cfg, s.cursor + 1, if e.Launch? then |s.inflight| + 1 else |s.inflight|, more, room - 1);
      assert ([e] + rest)[1..] == rest;
    }
  }

  /** Attempt `k` of a script. */
  function Nth(attempts: seq<Attempt>, k: nat): Attempt {
    if k < |attempts| then attempts[k] else NO_SOCKET
  }

  /** How many of the hosts `from..end` are not skipped as local addresses. */
  function CountTried(cfg: TcpConfig, from: nat, end: nat): nat
    decreases end - from
  {
    if end <= from then 0 else
      (if LocalSkip(cfg.net, cfg.base, from) then 0 else 1) + CountTried(cfg, from + 1, end)
  }

  /** Host `cursor + i` is skipped as local, or else gets its own attempt: the next one of the script. */
  lemma {:induction false} InitiateTries(cfg: TcpConfig, cursor: nat, active: nat, attempts: seq<Attempt>, room: nat,
                                         i: nat)
    requires i < |Initiate(cfg, cursor, active, attempts, room)|
    ensures Initiate(cfg, cursor, active, attempts, room)[i]
            == Try(cfg, cursor + i, Nth(attempts, CountTried(cfg, cursor, cursor + i)))
    decreases room
  {
    var e := Try(cfg, cursor, First(attempts));
    var more := if LocalSkip(cfg.net, cfg.base, cursor) then attempts else Rest(attempts);
    if i > 0 {
      InitiateTries(cfg, cursor + 1, if e.Launch? then active + 1 else active, more, room - 1, i - 1);
    }
  }

  /** A batch stops only when the range ends, the limit is reached or the batch is full. */
  lemma {:induction false} InitiateMoves(cfg: TcpConfig, cursor: nat, active: nat, attempts: seq<Attempt>, room: nat)
    ensures |Initiate(cfg, cursor, active, attempts, room)| <= room
    ensures cursor < cfg.total && active < cfg.cap && room > 0 ==> Initiate(cfg, cursor, active, attempts, room) != []
    decreases room
  {
    if !(cursor >= cfg.total || active >= cfg.cap || room == 0) {
      var e := Try(cfg, cursor, First(attempts));
      InitiateMoves(cfg, cursor + 1, if e.Launch? then active + 1 else active,
                    if LocalSkip(cfg.net, cfg.base, cursor) then attempts else Rest(attempts), room - 1);
    }
  }

  /** Exactly: the batch has as many hosts as there is room for unless the range or the limit ends it. */
  lemma {:induction false} InitiateStops(cfg: TcpConfig, cursor: nat, active: nat, attempts: seq<Attempt>, room: nat)
    ensures var evs := Initiate(cfg, cursor, active, attempts, room);
      |evs| == room || cursor + |evs| >= cfg.total || active + Tally(evs).launches >= cfg.cap
    decreases room
  {
    if !(cursor >= cfg.total || active >= cfg.cap || room == 0) {
      var e := Try(cfg, cursor, First(attempts));
      var more := if LocalSkip(cfg.net, cfg.base, cursor) then attempts else Rest(attempts);
      var active' := if e.Launch? then active + 1 else active;
      InitiateStops(cfg, cursor + 1, active', more, room - 1);
      var rest := Initiate(cfg, cursor + 1, active', more, room - 1);
      assert ([e] + rest)[1..] == rest;
    }
  }

  lemma {:induction false} PollLegal(lim: Limits, base: U32, s: State, polled: seq<Ready>, n: nat)
    ensures var evs := PollEvents(base, s.inflight, polled, n);
      && Legal(lim, s, evs) && |evs| <= n && (forall e :: e in evs ==> e.Answer? || e.Refuse?)
      && ApplyAll(s, evs).cursor == s.cursor
      && forall h :: h in ApplyAll(s, evs).inflight ==> h in s.inflight && ApplyAll(s, evs).inflight[h] == s.inflight[h]
    decreases |polled|
  {
    if !(polled == [] || n == 0) {
      var r := polled[0];
      if InFlightPeer(base, s.inflight, r.peer) {
        var e := Outcome(base, r);
        var rest := PollEvents(base, Apply(s, e).inflight, polled[1..], n - 1);
        PollLegal(lim, base, Apply(s, e), polled[1..], n - 1);
        assert ([e] + rest)[1..] == rest;
      } else {
        PollLegal(lim, base, s, polled[1..], n);
      }
    }
  }

  /** The peers among those that became ready that are in flight. */
  ghost function ReadyPeers(base: U32, m: map<nat, int>, polled: seq<Ready>): set<U32> {
    set r | r in polled && InFlightPeer(base, m, r.peer) :: r.peer
  }

  lemma ReadyPeersRest(base: U32, m: map<nat, int>, polled: seq<Ready>)
    requires polled != []
    ensures var r := polled[0];
      if InFlightPeer(base, m, r.peer)
      then r.peer in ReadyPeers(base, m, polled)
           && ReadyPeers(base, m - {r.peer - base}, polled[1..]) == ReadyPeers(base, m, polled) - {r.peer}
      else ReadyPeers(base, m, polled[1..]) == ReadyPeers(base, m, polled)
  {
    assert polled == [polled[0]] + polled[1..];
  }

  /** A poll leaves the connections that have not become ready in flight. */
  lemma {:induction false} PollSpares(base: U32, s: State, polled: seq<Ready>, n: nat, h: nat)
    requires h in s.inflight && forall r :: r in polled ==> r.peer != base + h
    ensures h in ApplyAll(s, PollEvents(base, s.inflight, polled, n)).inflight
    decreases |polled|
  {
    if !(polled == [] || n == 0) {
      var r := polled[0];
      assert r in polled && forall x :: x in polled[1..] ==> x in polled;
      if InFlightPeer(base, s.inflight, r.peer) {
        var e := Outcome(base, r);
        var rest := PollEvents(base, Apply(s, e).inflight, polled[1..], n - 1);
        PollSpares(base, Apply(s, e), polled[1..], n - 1, h);
        assert ([e] + rest)[1..] == rest;
      } else {
        PollSpares(base, s, polled[1..], n, h);
      }
    }
  }

  /** And it closes all those that have, unless there are more than it takes in. */
  lemma {:induction false} PollCloses(base: U32, s: State, polled: seq<Ready>, n: nat, peer: U32)
    requires peer in ReadyPeers(base, s.inflight, polled) && |ReadyPeers(base, s.inflight, polled)| <= n
    ensures !InFlightPeer(base, ApplyAll(s, PollEvents(base, s.inflight, polled, n)).inflight, peer)
    decreases |polled|
  {
    var r := polled[0];
    ReadyPeersRest(base, s.inflight, polled);
    if InFlightPeer(base, s.inflight, r.peer) {
      var e := Outcome(base, r);
      var rest := PollEvents(base, Apply(s, e).inflight, polled[1..], n - 1);
      assert ([e] + rest)[1..] == rest;
      if peer == r.peer {
        PollLegal(Limits(0, 0), base, Apply(s, e), polled[1..], n - 1);
      } else {
        PollCloses(base, Apply(s, e), polled[1..], n - 1, peer);
      }
    } else {
      PollCloses(base, s, polled[1..], n, peer);
    }
  }

  /** As many connections are closed as became ready, up to the number that a poll takes in. */
  lemma {:induction false} PollCount(base: U32, m: map<nat, int>, polled: seq<Ready>, n: nat)
    ensures var ready := |ReadyPeers(base, m, polled)|;
      |PollEvents(base, m, polled, n)| == if ready < n then ready else n
    decreases |polled|
  {
    if polled == [] {
      assert ReadyPeers(base, m, polled) == {};
    } else {
      var r := polled[0];
      ReadyPeersRest(base, m, polled);
      if InFlightPeer(base, m, r.peer) {
        var m' := m - {r.peer - base};
        assert |ReadyPeers(base, m', polled[1..])| == |ReadyPeers(base, m, polled)| - 1;
        if n > 0 {
          PollCount(base, m', polled[1..], n - 1);
        }
      } else {
        PollCount(base, m, polled[1..], n);
      }
    }
  }

  /** What was reported first about `peer`. */
  predicate FirstReady(polled: seq<Ready>, peer: int, r: Ready) {
    polled != [] && if polled[0].peer == peer then r == polled[0] else FirstReady(polled[1..], peer, r)
  }

  /** If no more connections became ready than a poll takes in, each is credited with its first report. */
  lemma {:induction false} PollTakes(base: U32, m: map<nat, int>, polled: seq<Ready>, n: nat, h: nat, r: Ready)
    requires h in m && FirstReady(polled, base + h, r) && |ReadyPeers(base, m, polled)| <= n
    ensures (if r.error == 0 then Answer(h) else Refuse(h)) in PollEvents(base, m, polled, n)
    decreases |polled|
  {
    ReadyPeersRest(base, m, polled);
    var r0 := polled[0];
    if InFlightPeer(base, m, r0.peer) {
      if r0.peer != base + h {
        PollTakes(base, m - {r0.peer - base}, polled[1..], n - 1, h, r);
      }
    } else {
      PollTakes(base, m, polled[1..], n, h, r);
    }
  }

  /** The result for a host that a poll finds: its address, the port, and the time from the start of its connection to
      the first report about it, at least 0. */
  lemma {:induction false} PollReports(cfg: TcpConfig, m: map<nat, int>, polled: seq<Ready>, n: nat, h: nat)
    returns (k: nat, r: Ready)
    requires Answer(h) in PollEvents(cfg.base, m, polled, n)
    ensures h in m && FirstReady(polled, cfg.base + h, r) && r.error == 0
    ensures k < |PollResults(cfg, m, polled, n)|
    ensures Reports(cfg, PollResults(cfg, m, polled, n)[k], h, Nanos(r.at) - m[h])
    decreases |polled|
  {
    r := polled[0];
    if !InFlightPeer(cfg.base, m, r.peer) {
      k, r := PollReports(cfg, m, polled[1..], n, h);
    } else if Outcome(cfg.base, r) == Answer(h) {
      k := 0;
    } else {
      var first := if r.error == 0 then 1 else 0;
      k, r := PollReports(cfg, m - {r.peer - cfg.base}, polled[1..], n - 1, h);
      k := k + first;
    }
  }

  /** A result for host `h` that answered after `age` nanoseconds. */
  ghost predicate Reports(cfg: TcpConfig, result: TcpHostResult, h: nat, age: int) {
    result.ip == cfg.base + h && result.port == cfg.port && result.rtt == if age < 0 then 0 else age
  }

  /** The results of a poll name the hosts it finds, in order. */
  lemma {:induction false} PollFinds(cfg: TcpConfig, s: State, polled: seq<Ready>, n: nat, results: seq<TcpHostResult>)
    requires Named(cfg.base, results, s.found)
    ensures Named(cfg.base, results + PollResults(cfg, s.inflight, polled, n),
                  ApplyAll(s, PollEvents(cfg.base, s.inflight, polled, n)).found)
    decreases |polled|
  {
    if polled == [] || n == 0 {
      assert results + [] == results;
    } else {
      var r := polled[0];
      if InFlightPeer(cfg.base, s.inflight, r.peer) {
        var e, h := Outcome(cfg.base, r), r.peer - cfg.base;
        var rest := PollEvents(cfg.base, s.inflight - {h}, polled[1..], n - 1);
        var more := PollResults(cfg, s.inflight - {h}, polled[1..], n - 1);
        assert ([e] + rest)[1..] == rest;
        if e.Answer? {
          var one := [TcpHostResult(r.peer, cfg.port, RoundTrip(r.at, s.inflight[h]))];
          PollFinds(cfg, Apply(s, e), polled[1..], n - 1, results + one);
          assert results + one + more == results + (one + more);
        } else {
          PollFinds(cfg, Apply(s, e), polled[1..], n - 1, results);
        }
      } else {
        PollFinds(cfg, s, polled[1..], n, results);
      }
    }
  }

  /** The results are those of the found hosts, in order. */
  ghost predicate Named(base: U32, results: seq<TcpHostResult>, found: seq<nat>) {
    |results| == |found| && forall k :: 0 <= k < |found| ==> results[k].ip == base + found[k]
  }

  ghost predicate Faithful(cfg: TcpConfig, l: TcpLog) {
    && Legal(LimitsOf(cfg), START, l.trace) && TcpSteps(l.trace)
    && Named(cfg.base, l.results, ApplyAll(START, l.trace).found)
  }

  /** The three parts of a round. */
  lemma RoundParts(cfg: TcpConfig, l: TcpLog, r: TcpRound)
    requires Faithful(cfg, l)
    ensures var s, tr := ApplyAll(START, l.trace), Initiated(cfg, l.trace, r);
      var evs := Initiate(cfg, s.cursor, |s.inflight|, r.attempts, cfg.batch);
      && Legal(LimitsOf(cfg), START, tr) && TcpSteps(tr)
      && ApplyAll(START, tr) == ApplyAll(s, evs) && ApplyAll(START, tr).cursor == s.cursor + |evs|
      && (evs == [] ==> ApplyAll(START, tr) == s)
      && ApplyAll(START, tr).found == s.found
    ensures var s, tr := ApplyAll(START, Initiated(cfg, l.trace, r)), Polled(cfg, Initiated(cfg, l.trace, r), r);
      var s' := ApplyAll(START, tr);
      && Legal(LimitsOf(cfg), START, tr) && TcpSteps(tr)
      && s'.cursor == s.cursor
      && (forall h :: h in s'.inflight ==> h in s.inflight && s'.inflight[h] == s.inflight[h])
      && Named(cfg.base, NextLog(cfg, l, r).results, s'.found)
  {
    var lim, s := LimitsOf(cfg), ApplyAll(START, l.trace);
    RunKeepsInv(lim, START, l.trace);
    StepsKeepFoundProbed(lim, START, l.trace);
    InitiateLegal(cfg, s, r.attempts, cfg.batch);
    Concat(lim, START, l.trace, Initiate(cfg, s.cursor, |s.inflight|, r.attempts, cfg.batch));
    var tr := Initiated(cfg, l.trace, r);
    var s1 := ApplyAll(START, tr);
    PollLegal(lim, cfg.base, s1, r.polled, cfg.batch);
    PollFinds(cfg, s1, r.polled, cfg.batch, l.results);
    Concat(lim, START, tr, PollEvents(cfg.base, s1.inflight, r.polled, cfg.batch));
  }

  lemma InitiatedKeepsFound(cfg: TcpConfig, l: TcpLog, r: TcpRound)
    requires Faithful(cfg, l)
    ensures ApplyAll(START, Initiated(cfg, l.trace, r)).found == ApplyAll(START, l.trace).found
  {
    RoundParts(cfg, l, r);
  }

  lemma NextFaithful(cfg: TcpConfig, l: TcpLog, r: TcpRound)
    requires Faithful(cfg, l)
    ensures Faithful(cfg, NextLog(cfg, l, r))
    ensures var s, tr := ApplyAll(START, NextLog(cfg, l, r).trace), Polled(cfg, Initiated(cfg, l.trace, r), r);
      s == ApplyAll(START, tr).(inflight := Survivors(ApplyAll(START, tr).inflight, Nanos(r.now), TimeoutNs(cfg)))
  {
    var lim, tr := LimitsOf(cfg), Polled(cfg, Initiated(cfg, l.trace, r), r);
    RoundParts(cfg, l, r);
    var s := ApplyAll(START, tr);
    RunKeepsInv(lim, START, tr);
    ReapExact(lim, s, Nanos(r.now), TimeoutNs(cfg));
    ExpiriesOnly(s.inflight, Nanos(r.now), TimeoutNs(cfg), 0, cfg.total);
    Concat(lim, START, tr, ReapEvents(cfg, s, r.now));
  }

  lemma {:induction false} RunFaithful(cfg: TcpConfig, env: TcpEnvironment, n: nat)
    ensures Faithful(cfg, RunLog(cfg, env, n))
  {
    if n > 0 {
      RunFaithful(cfg, env, n - 1);
      NextFaithful(cfg, RunLog(cfg, env, n - 1), env(n - 1));
    }
  }

  // ----- What brought each step about -----

  /** How many hosts the cursor has passed after `n` rounds. */
  ghost function CursorAt(cfg: TcpConfig, env: TcpEnvironment, n: nat): nat {
    ApplyAll(START, RunLog(cfg, env, n).trace).cursor
  }

  /** What round `n`, counted from 0, makes of the hosts it passes. */
  ghost function PassesAt(cfg: TcpConfig, env: TcpEnvironment, n: nat): seq<Event> {
    var s := ApplyAll(START, RunLog(cfg, env, n).trace);
    Initiate(cfg, s.cursor, |s.inflight|, env(n).attempts, cfg.batch)
  }

  /** The cursor passes host `h` in round `i`. */
  ghost predicate PassedIn(cfg: TcpConfig, env: TcpEnvironment, i: nat, h: nat) {
    CursorAt(cfg, env, i) <= h < CursorAt(cfg, env, i + 1)
  }

  /** The attempt of round `i` that falls to host `h`: every host passed before it in that round has taken one, unless
      it is a local address. */
  ghost function OwnAttempt(cfg: TcpConfig, env: TcpEnvironment, i: nat, h: nat): Attempt {
    Nth(env(i).attempts, CountTried(cfg, CursorAt(cfg, env, i), h))
  }

  /** The connections open when round `i` polls. */
  ghost function AtPoll(cfg: TcpConfig, env: TcpEnvironment, i: nat): map<nat, int> {
    ApplyAll(START, Initiated(cfg, RunLog(cfg, env, i).trace, env(i))).inflight
  }

  /** And when it reaps. */
  ghost function AtReap(cfg: TcpConfig, env: TcpEnvironment, i: nat): map<nat, int> {
    ApplyAll(START, Polled(cfg, Initiated(cfg, RunLog(cfg, env, i).trace, env(i)), env(i))).inflight
  }

  /** Round `i` is what brought the step about: its batch passed the host and made of it what the host's own attempt
      says; or the host's connection was open, became ready, and had an error or none; or it was open and over age. */
  ghost predicate Caused(cfg: TcpConfig, env: TcpEnvironment, i: nat, e: Event) {
    match e
    case Skip(h, _) => PassedIn(cfg, env, i, h) && e == Try(cfg, h, OwnAttempt(cfg, env, i, h))
    case Launch(h, _) => PassedIn(cfg, env, i, h) && e == Try(cfg, h, OwnAttempt(cfg, env, i, h))
    case Answer(h) =>
      h in AtPoll(cfg, env, i) && exists r :: FirstReady(env(i).polled, cfg.base + h, r) && r.error == 0
    case Refuse(h) =>
      h in AtPoll(cfg, env, i) && exists r :: FirstReady(env(i).polled, cfg.base + h, r) && r.error != 0
    case Expire(h) =>
      h in AtReap(cfg, env, i) && Nanos(env(i).now) - AtReap(cfg, env, i)[h] > TimeoutNs(cfg)
    case Rollback(_) => false
    case Stray(_) => false
  }

  /** Every step of a run was brought about in one of its rounds. */
  lemma {:induction false} RunCauses(cfg: TcpConfig, env: TcpEnvironment, n: nat)
    ensures forall e :: e in RunLog(cfg, env, n).trace ==> exists i: nat :: i < n && Caused(cfg, env, i, e)
  {
    if n > 0 {
      var m: nat := n - 1;
      RunCauses(cfg, env, m);
      forall e | e in RunLog(cfg, env, n).trace
        ensures exists i: nat :: i < n && Caused(cfg, env, i, e)
      {
        if e in RunLog(cfg, env, m).trace {
          var i: nat :| i < m && Caused(cfg, env, i, e);
        } else {
          RoundCauses(cfg, env, m, e);
        }
      }
    }
  }

  lemma RoundCauses(cfg: TcpConfig, env: TcpEnvironment, n: nat, e: Event)
    requires e in RunLog(cfg, env, n + 1).trace && e !in RunLog(cfg, env, n).trace
    ensures Caused(cfg, env, n, e)
  {
    RoundAdds(cfg, env, n, e);
    if e in PassesAt(cfg, env, n) {
      PassCaused(cfg, env, n, e);
    } else if e in PollEvents(cfg.base, AtPoll(cfg, env, n), env(n).polled, cfg.batch) {
      PollCaused(cfg, env, n, e);
    } else {
      ExpiriesOnly(AtReap(cfg, env, n), Nanos(env(n).now), TimeoutNs(cfg), 0, cfg.total);
    }
  }

  /** The steps a round adds are those of its three parts. */
  lemma RoundAdds(cfg: TcpConfig, env: TcpEnvironment, n: nat, e: Event)
    requires e in RunLog(cfg, env, n + 1).trace && e !in RunLog(cfg, env, n).trace
    ensures || e in PassesAt(cfg, env, n)
            || e in PollEvents(cfg.base, AtPoll(cfg, env, n), env(n).polled, cfg.batch)
            || e in Expiries(AtReap(cfg, env, n), Nanos(env(n).now), TimeoutNs(cfg), 0, cfg.total)
  {
  }

  lemma PassCaused(cfg: TcpConfig, env: TcpEnvironment, n: nat, e: Event)
    requires e in PassesAt(cfg, env, n)
    ensures Caused(cfg, env, n, e)
  {
    var s := ApplyAll(START, RunLog(cfg, env, n).trace);
    var i := TriedIn(cfg, s.cursor, |s.inflight|, env(n).attempts, cfg.batch, e);
    RoundMoves(cfg, env, n);
  }

  lemma PollCaused(cfg: TcpConfig, env: TcpEnvironment, n: nat, e: Event)
    requires e in PollEvents(cfg.base, AtPoll(cfg, env, n), env(n).polled, cfg.batch)
    ensures Caused(cfg, env, n, e)
  {
    var r := PolledIn(cfg.base, AtPoll(cfg, env, n), env(n).polled, cfg.batch, e);
  }

  lemma TriedIn(cfg: TcpConfig, cursor: nat, active: nat, attempts: seq<Attempt>, room: nat, e: Event) returns (i: nat)
    requires e in Initiate(cfg, cursor, active, attempts, room)
    ensures i < |Initiate(cfg, cursor, active, attempts, room)|
    ensures (e.Skip? || e.Launch?) && e.host == cursor + i
    ensures e == Try(cfg, e.host, Nth(attempts, CountTried(cfg, cursor, e.host)))
  {
    var evs := Initiate(cfg, cursor, active, attempts, room);
    i :| 0 <= i < |evs| && evs[i] == e;
    InitiateTries(cfg, cursor, active, attempts, room, i);
  }

  lemma {:induction false} PolledIn(base: U32, m: map<nat, int>, polled: seq<Ready>, n: nat, e: Event)
    returns (r: Ready)
    requires e in PollEvents(base, m, polled, n)
    ensures (e.Answer? || e.Refuse?) && e.host in m
    ensures FirstReady(polled, base + e.host, r) && r.peer == base + e.host && e == Outcome(base, r)
    decreases |polled|
  {
    r := polled[0];
    if !InFlightPeer(base, m, r.peer) {
      r := PolledIn(base, m, polled[1..], n, e);
    } else if e != Outcome(base, r) {
      r := PolledIn(base, m - {r.peer - base}, polled[1..], n - 1, e);
    }
  }

  /** A round moves the cursor by the hosts it passes. */
  lemma RoundMoves(cfg: TcpConfig, env: TcpEnvironment, n: nat)
    ensures CursorAt(cfg, env, n + 1) == CursorAt(cfg, env, n) + |PassesAt(cfg, env, n)|
  {
    var l := RunLog(cfg, env, n);
    RunFaithful(cfg, env, n);
    if !Over(cfg, ApplyAll(START, l.trace)) {
      RoundParts(cfg, l, env(n));
      NextFaithful(cfg, l, env(n));
    }
  }

  lemma {:induction false} CursorAdvances(cfg: TcpConfig, env: TcpEnvironment, i: nat, j: nat)
    requires i <= j
    ensures CursorAt(cfg, env, i) <= CursorAt(cfg, env, j)
    decreases j - i
  {
    if i < j {
      CursorAdvances(cfg, env, i + 1, j);
      RoundMoves(cfg, env, i);
    }
  }

  lemma CursorOrder(cfg: TcpConfig, env: TcpEnvironment, i: nat, k: nat, h: nat)
    requires CursorAt(cfg, env, i) <= h < CursorAt(cfg, env, k)
    ensures i < k
  {
    if k <= i {
      CursorAdvances(cfg, env, k, i);
    }
  }

  /** No host is passed in two rounds. */
  lemma PassedOnce(cfg: TcpConfig, env: TcpEnvironment, i: nat, j: nat, h: nat)
    requires PassedIn(cfg, env, i, h) && PassedIn(cfg, env, j, h)
    ensures i == j
  {
    NotBefore(cfg, env, i, j, h);
    NotBefore(cfg, env, j, i, h);
  }

  lemma NotBefore(cfg: TcpConfig, env: TcpEnvironment, i: nat, j: nat, h: nat)
    requires PassedIn(cfg, env, i, h) && PassedIn(cfg, env, j, h)
    ensures i <= j
  {
    CursorOrder(cfg, env, i, j + 1, h);
  }

  /** Within a round, no two hosts are given the same attempt. */
  lemma {:induction false} AttemptsDiffer(cfg: TcpConfig, from: nat, h: nat, h': nat)
    requires from <= h < h' && !LocalSkip(cfg.net, cfg.base, h)
    ensures CountTried(cfg, from, h) < CountTried(cfg, from, h')
    decreases h - from
  {
    if from < h {
      AttemptsDiffer(cfg, from + 1, h, h');
    }
  }

  // ----- The outcome of every host -----

  /** The five things that can become of a host. */
  predicate HasOutcome(w: seq<Event>, h: nat) {
    || w == [Skip(h, LocalAddress)]
    || w == [Skip(h, StartFailed)]
    || (|w| == 2 && w[0].Launch? && w[0].host == h && w[1] in {Answer(h), Refuse(h), Expire(h)})
  }

  lemma {:induction false} AboutSteps(tr: seq<Event>, h: nat)
    requires TcpSteps(tr)
    ensures TcpSteps(About(tr, h)) && RollbackFree(tr)
  {
    if tr != [] {
      assert tr == [tr[0]] + tr[1..] && TcpStep(tr[0]);
      AboutSteps(tr[1..], h);
    }
  }

  /** When the run is over, every host has had exactly one outcome.  Local addresses were skipped and never tried.  Any
      other host was passed in one round `i`, and a connection to it was started unless, in its own attempt, there was
      no socket or it could not be made non-blocking, connected or registered.  A connection ended in a round `j`, that
      one or a later one: `r` is the first report about it there, with or without an error, or it was over age.  The
      hosts reported are exactly those that answered, each once; result `k` gives the address, the port and the time
      from the attempt to the report, at least 0. */
  lemma TcpPartition(cfg: TcpConfig, env: TcpEnvironment, n: nat, h: nat) returns (i: nat, j: nat, r: Ready, k: nat)
    requires StoppedAt(cfg, env, n) && h < cfg.total
    ensures i < n && PassedIn(cfg, env, i, h)
    ensures var l, own := RunLog(cfg, env, n), OwnAttempt(cfg, env, i, h);
      var w, s := About(l.trace, h), ApplyAll(START, l.trace);
      && HasOutcome(w, h)
      && (w == [Skip(h, LocalAddress)] <==> LocalSkip(cfg.net, cfg.base, h))
      && (w == [Skip(h, StartFailed)] <==>
            !LocalSkip(cfg.net, cfg.base, h)
            && !(own.socket.Some? && own.nonBlocking && own.connected && own.registered))
      && (|w| == 2 ==>
            && w[0] == Launch(h, Nanos(own.at)) && i <= j < n && Caused(cfg, env, j, w[1])
            && (w[1].Expire? ==>
                  1000 * (Nanos(env(j).now) - Nanos(own.at)) > cfg.timeoutMs * 1_000_000_000)
            && (w[1].Answer? || w[1].Refuse? ==>
                  FirstReady(env(j).polled, cfg.base + h, r) && (w[1].Answer? <==> r.error == 0))
            && (w[1].Answer? ==>
                  var age := Nanos(r.at) - Nanos(own.at);
                  && k < |l.results| && l.results[k].ip == cfg.base + h && l.results[k].port == cfg.port
                  && l.results[k].rtt == if age < 0 then 0 else age))
      && (h in s.found <==> Answer(h) in w)
      && Distinct(s.found) && Named(cfg.base, l.results, s.found)
  {
    i := PassedOrTried(cfg, env, n, h);
    j, r, k := EndedAs(cfg, env, n, i, h);
  }

  /** Whether a connection to a host was started. */
  lemma PassedOrTried(cfg: TcpConfig, env: TcpEnvironment, n: nat, h: nat) returns (i: nat)
    requires StoppedAt(cfg, env, n) && h < cfg.total
    ensures i < n && PassedIn(cfg, env, i, h)
    ensures var l, own := RunLog(cfg, env, n), OwnAttempt(cfg, env, i, h);
      var w, s := About(l.trace, h), ApplyAll(START, l.trace);
      && HasOutcome(w, h)
      && (w == [Skip(h, LocalAddress)] <==> LocalSkip(cfg.net, cfg.base, h))
      && (w == [Skip(h, StartFailed)] <==>
            !LocalSkip(cfg.net, cfg.base, h)
            && !(own.socket.Some? && own.nonBlocking && own.connected && own.registered))
      && (|w| == 2 ==> w[0] == Launch(h, Nanos(own.at)))
      && (h in s.found <==> Answer(h) in w)
      && Distinct(s.found) && Named(cfg.base, l.results, s.found)
  {
    var l := RunLog(cfg, env, n);
    RunFaithful(cfg, env, n);
    SettledAs(cfg, l, h);
    RunCauses(cfg, env, n);
    i :| i < n && Caused(cfg, env, i, About(l.trace, h)[0]);
  }

  /** How it ended, if there was one. */
  lemma EndedAs(cfg: TcpConfig, env: TcpEnvironment, n: nat, i: nat, h: nat) returns (j: nat, r: Ready, k: nat)
    requires PassedIn(cfg, env, i, h) && HasOutcome(About(RunLog(cfg, env, n).trace, h), h)
    ensures var l, own := RunLog(cfg, env, n), OwnAttempt(cfg, env, i, h);
      var w := About(l.trace, h);
      && (|w| == 2 ==>
            && i <= j < n && Caused(cfg, env, j, w[1])
            && (w[1].Expire? ==>
                  1000 * (Nanos(env(j).now) - Nanos(own.at)) > cfg.timeoutMs * 1_000_000_000)
            && (w[1].Answer? || w[1].Refuse? ==>
                  FirstReady(env(j).polled, cfg.base + h, r) && (w[1].Answer? <==> r.error == 0))
            && (w[1].Answer? ==>
                  var age := Nanos(r.at) - Nanos(own.at);
                  && k < |l.results| && l.results[k].ip == cfg.base + h && l.results[k].port == cfg.port
                  && l.results[k].rtt == if age < 0 then 0 else age))
  {
    var w := About(RunLog(cfg, env, n).trace, h);
    RunCauses(cfg, env, n);
    AboutIn(RunLog(cfg, env, n).trace, h);
    j, k, r := 0, 0, Ready(0, 0, Timespec(0, 0));
    if |w| == 2 {
      assert w == [w[0], w[1]] && w[1] in w;
      if w[1] == Answer(h) {
        j, k, r := AnsweredIn(cfg, env, n, i, h);
      } else if w[1] == Refuse(h) {
        j, r := RefusedIn(cfg, env, n, i, h);
      } else {
        j := ExpiredIn(cfg, env, n, i, h);
      }
    }
  }

  /** The history of a host in a run that is over. */
  lemma SettledAs(cfg: TcpConfig, l: TcpLog, h: nat)
    requires Faithful(cfg, l) && Over(cfg, ApplyAll(START, l.trace)) && h < cfg.total
    ensures var w := About(l.trace, h);
      && HasOutcome(w, h) && w[0] in l.trace
      && (h in ApplyAll(START, l.trace).found <==> Answer(h) in w) && Distinct(ApplyAll(START, l.trace).found)
  {
    var w := About(l.trace, h);
    RunKeepsInv(LimitsOf(cfg), START, l.trace);
    AboutSteps(l.trace, h);
    EveryHostSettles(LimitsOf(cfg), l.trace, h);
    OutcomeOf(w, h);
    AboutIn(l.trace, h);
  }

  /** A connection that was refused: when, and after which report. */
  lemma RefusedIn(cfg: TcpConfig, env: TcpEnvironment, n: nat, i: nat, h: nat) returns (j: nat, r: Ready)
    requires PassedIn(cfg, env, i, h)
    requires exists j: nat :: j < n && Caused(cfg, env, j, Refuse(h))
    ensures i <= j < n && Caused(cfg, env, j, Refuse(h))
    ensures FirstReady(env(j).polled, cfg.base + h, r) && r.error != 0
  {
    j :| j < n && Caused(cfg, env, j, Refuse(h));
    r := RefusedAfter(cfg, env, j, h);
    OpenLater(cfg, env, i, j, h);
  }

  lemma RefusedAfter(cfg: TcpConfig, env: TcpEnvironment, j: nat, h: nat) returns (r: Ready)
    requires Caused(cfg, env, j, Refuse(h))
    ensures FirstReady(env(j).polled, cfg.base + h, r) && r.error != 0 && h in AtPoll(cfg, env, j)
  {
    r :| FirstReady(env(j).polled, cfg.base + h, r) && r.error != 0;
  }

  /** A connection that timed out: when, and at what age. */
  lemma ExpiredIn(cfg: TcpConfig, env: TcpEnvironment, n: nat, i: nat, h: nat) returns (j: nat)
    requires PassedIn(cfg, env, i, h)
    requires exists j: nat :: j < n && Caused(cfg, env, j, Expire(h))
    ensures i <= j < n && Caused(cfg, env, j, Expire(h))
    ensures 1000 * (Nanos(env(j).now) - Nanos(OwnAttempt(cfg, env, i, h).at)) > cfg.timeoutMs * 1_000_000_000
  {
    j :| j < n && Caused(cfg, env, j, Expire(h));
    var t := ReapsOpen(cfg, env, j, h);
    OpenSince(cfg, env, i, j, h, t);
  }

  /** What is open when a round reaps was open when it polled. */
  lemma ReapsOpen(cfg: TcpConfig, env: TcpEnvironment, j: nat, h: nat) returns (t: int)
    requires h in AtReap(cfg, env, j)
    ensures t == AtReap(cfg, env, j)[h] && h in AtPoll(cfg, env, j) && t == AtPoll(cfg, env, j)[h]
  {
    RunFaithful(cfg, env, j);
    RoundParts(cfg, RunLog(cfg, env, j), env(j));
    t := AtReap(cfg, env, j)[h];
  }

  lemma {:induction false} FlightLaunched(s: State, tr: seq<Event>, h: nat)
    requires h in ApplyAll(s, tr).inflight
    ensures var t := ApplyAll(s, tr).inflight[h]; Launch(h, t) in tr || (h in s.inflight && s.inflight[h] == t)
    decreases |tr|
  {
    if tr != [] {
      assert tr == [tr[0]] + tr[1..];
      FlightLaunched(Apply(s, tr[0]), tr[1..], h);
    }
  }

  /** An open connection was started by its host's own attempt, in that round or an earlier one. */
  lemma OpenSince(cfg: TcpConfig, env: TcpEnvironment, i: nat, j: nat, h: nat, t: int)
    requires PassedIn(cfg, env, i, h) && h in AtPoll(cfg, env, j) && t == AtPoll(cfg, env, j)[h]
    ensures i <= j && t == Nanos(OwnAttempt(cfg, env, i, h).at)
  {
    OpenLater(cfg, env, i, j, h);
    OpenLaunched(cfg, env, j, h, t);
    LaunchTime(cfg, env, i, j + 1, h, t);
  }

  lemma OpenLaunched(cfg: TcpConfig, env: TcpEnvironment, j: nat, h: nat, t: int)
    requires h in AtPoll(cfg, env, j) && t == AtPoll(cfg, env, j)[h]
    ensures Launch(h, t) in RunLog(cfg, env, j + 1).trace
  {
    var l := RunLog(cfg, env, j);
    FlightLaunched(START, Initiated(cfg, l.trace, env(j)), h);
    StillRuns(cfg, l, env(j), h);
  }

  lemma StillRuns(cfg: TcpConfig, l: TcpLog, r: TcpRound, h: nat)
    requires h in ApplyAll(START, Initiated(cfg, l.trace, r)).inflight
    ensures !Over(cfg, ApplyAll(START, l.trace))
  {
    assert l.trace + [] == l.trace;
  }

  lemma LaunchTime(cfg: TcpConfig, env: TcpEnvironment, i: nat, m: nat, h: nat, t: int)
    requires PassedIn(cfg, env, i, h) && Launch(h, t) in RunLog(cfg, env, m).trace
    ensures t == Nanos(OwnAttempt(cfg, env, i, h).at)
  {
    RunCauses(cfg, env, m);
    var i': nat :| i' < m && Caused(cfg, env, i', Launch(h, t));
    PassedOnce(cfg, env, i, i', h);
  }

  /** A host that answered: when, after which report, and with which result. */
  lemma AnsweredIn(cfg: TcpConfig, env: TcpEnvironment, n: nat, i: nat, h: nat) returns (j: nat, k: nat, r: Ready)
    requires PassedIn(cfg, env, i, h) && Answer(h) in RunLog(cfg, env, n).trace
    ensures i <= j < n && Caused(cfg, env, j, Answer(h)) && FirstReady(env(j).polled, cfg.base + h, r) && r.error == 0
    ensures k < |RunLog(cfg, env, n).results|
    ensures Reports(cfg, RunLog(cfg, env, n).results[k], h, Nanos(r.at) - Nanos(OwnAttempt(cfg, env, i, h).at))
  {
    var t;
    j, k, r, t := RunReports(cfg, env, n, h);
    AnswerCaused(cfg, env, j, h, r);
    OpenSince(cfg, env, i, j, h, t);
  }

  lemma AnswerCaused(cfg: TcpConfig, env: TcpEnvironment, j: nat, h: nat, r: Ready)
    requires h in AtPoll(cfg, env, j) && FirstReady(env(j).polled, cfg.base + h, r) && r.error == 0
    ensures Caused(cfg, env, j, Answer(h))
  {
  }

  lemma RunReports(cfg: TcpConfig, env: TcpEnvironment, n: nat, h: nat)
    returns (j: nat, k: nat, r: Ready, t: int)
    requires Answer(h) in RunLog(cfg, env, n).trace
    ensures j < n && h in AtPoll(cfg, env, j) && t == AtPoll(cfg, env, j)[h]
    ensures FirstReady(env(j).polled, cfg.base + h, r) && r.error == 0
    ensures k < |RunLog(cfg, env, n).results|
    ensures Reports(cfg, RunLog(cfg, env, n).results[k], h, Nanos(r.at) - t)
  {
    j := AnswerRound(cfg, env, n, h);
    k, r, t := RoundReports(cfg, env, j, h);
    ResultsGrow(cfg, env, j + 1, n);
  }

  lemma {:induction false} AnswerRound(cfg: TcpConfig, env: TcpEnvironment, n: nat, h: nat) returns (j: nat)
    requires Answer(h) in RunLog(cfg, env, n).trace
    ensures j < n && Answer(h) in RunLog(cfg, env, j + 1).trace && Answer(h) !in RunLog(cfg, env, j).trace
  {
    j := n - 1;
    if Answer(h) in RunLog(cfg, env, j).trace {
      j := AnswerRound(cfg, env, j, h);
    }
  }

  lemma {:induction false} ResultsGrow(cfg: TcpConfig, env: TcpEnvironment, i: nat, n: nat)
    requires i <= n
    ensures RunLog(cfg, env, i).results <= RunLog(cfg, env, n).results
    decreases n - i
  {
    if i < n {
      ResultsGrowOn(cfg, env, i);
      ResultsGrow(cfg, env, i + 1, n);
    }
  }

  lemma ResultsGrowOn(cfg: TcpConfig, env: TcpEnvironment, n: nat)
    ensures RunLog(cfg, env, n).results <= RunLog(cfg, env, n + 1).results
  {
  }

  lemma RoundReports(cfg: TcpConfig, env: TcpEnvironment, n: nat, h: nat)
    returns (k: nat, r: Ready, t: int)
    requires Answer(h) in RunLog(cfg, env, n + 1).trace && Answer(h) !in RunLog(cfg, env, n).trace
    ensures h in AtPoll(cfg, env, n) && t == AtPoll(cfg, env, n)[h]
    ensures FirstReady(env(n).polled, cfg.base + h, r) && r.error == 0
    ensures k < |RunLog(cfg, env, n + 1).results|
    ensures Reports(cfg, RunLog(cfg, env, n + 1).results[k], h, Nanos(r.at) - t)
  {
    AnswerAdded(cfg, env, n, h);
    k, r := PollReports(cfg, AtPoll(cfg, env, n), env(n).polled, cfg.batch, h);
    t := AtPoll(cfg, env, n)[h];
    k := ReportsBehind(cfg, RunLog(cfg, env, n).results,
                       PollResults(cfg, AtPoll(cfg, env, n), env(n).polled, cfg.batch), k, h, Nanos(r.at) - t);
  }

  lemma ReportsBehind(cfg: TcpConfig, a: seq<TcpHostResult>, b: seq<TcpHostResult>, k: nat, h: nat, age: int)
    returns (k': nat)
    requires k < |b| && Reports(cfg, b[k], h, age)
    ensures k' < |a + b| && Reports(cfg, (a + b)[k'], h, age)
  {
    k' := |a| + k;
    assert (a + b)[k'] == b[k];
  }

  lemma AnswerAdded(cfg: TcpConfig, env: TcpEnvironment, n: nat, h: nat)
    requires Answer(h) in RunLog(cfg, env, n + 1).trace && Answer(h) !in RunLog(cfg, env, n).trace
    ensures Answer(h) in PollEvents(cfg.base, AtPoll(cfg, env, n), env(n).polled, cfg.batch)
    ensures RunLog(cfg, env, n + 1).results
            == RunLog(cfg, env, n).results + PollResults(cfg, AtPoll(cfg, env, n), env(n).polled, cfg.batch)
  {
    AnswerPolled(cfg, RunLog(cfg, env, n), env(n), h);
  }

  lemma AnswerPolled(cfg: TcpConfig, l: TcpLog, r: TcpRound, h: nat)
    requires Answer(h) in NextLog(cfg, l, r).trace && Answer(h) !in l.trace
    ensures Answer(h) in PollEvents(cfg.base, ApplyAll(START, Initiated(cfg, l.trace, r)).inflight, r.polled, cfg.batch)
  {
    var s, tr := ApplyAll(START, l.trace), Initiated(cfg, l.trace, r);
    if Answer(h) in Initiate(cfg, s.cursor, |s.inflight|, r.attempts, cfg.batch) {
      var i := TriedIn(cfg, s.cursor, |s.inflight|, r.attempts, cfg.batch, Answer(h));
    }
    ExpiriesOnly(ApplyAll(START, Polled(cfg, tr, r)).inflight, Nanos(r.now), TimeoutNs(cfg), 0, cfg.total);
  }

  /** Nothing that happens is missed: in a round that is carried out, an open connection that becomes ready, among no
      more than the poll takes in, is answered or refused as the first report about it says; and one that is then still
      open and over age expires. */
  lemma ReadyIsTaken(cfg: TcpConfig, env: TcpEnvironment, n: nat, h: nat, r: Ready)
    requires !StoppedAt(cfg, env, n) && h in AtPoll(cfg, env, n) && FirstReady(env(n).polled, cfg.base + h, r)
    requires |ReadyPeers(cfg.base, AtPoll(cfg, env, n), env(n).polled)| <= cfg.batch
    ensures (if r.error == 0 then Answer(h) else Refuse(h)) in RunLog(cfg, env, n + 1).trace
  {
    PollTakes(cfg.base, AtPoll(cfg, env, n), env(n).polled, cfg.batch, h, r);
  }

  lemma OverAgeExpires(cfg: TcpConfig, env: TcpEnvironment, n: nat, h: nat)
    requires !StoppedAt(cfg, env, n) && h in AtReap(cfg, env, n)
    requires 1000 * (Nanos(env(n).now) - AtReap(cfg, env, n)[h]) > cfg.timeoutMs * 1_000_000_000
    ensures Expire(h) in RunLog(cfg, env, n + 1).trace
  {
    OpenIsPassed(cfg, env, n, h);
    RunFaithful(cfg, env, n + 1);
    RunKeepsInv(LimitsOf(cfg), START, RunLog(cfg, env, n + 1).trace);
    ExpiriesAll(AtReap(cfg, env, n), Nanos(env(n).now), TimeoutNs(cfg), 0, cfg.total, h);
  }

  /** No connection is open before the round that passes its host. */
  lemma OpenLater(cfg: TcpConfig, env: TcpEnvironment, i: nat, j: nat, h: nat)
    requires CursorAt(cfg, env, i) <= h && (h in AtPoll(cfg, env, j) || h in AtReap(cfg, env, j))
    ensures i <= j
  {
    OpenIsPassed(cfg, env, j, h);
    CursorOrder(cfg, env, i, j + 1, h);
  }

  lemma OpenIsPassed(cfg: TcpConfig, env: TcpEnvironment, n: nat, h: nat)
    requires h in AtPoll(cfg, env, n) || h in AtReap(cfg, env, n)
    ensures h < CursorAt(cfg, env, n + 1)
  {
    var l := RunLog(cfg, env, n);
    RunFaithful(cfg, env, n);
    RoundParts(cfg, l, env(n));
    RunKeepsInv(LimitsOf(cfg), START, Initiated(cfg, l.trace, env(n)));
    RoundMoves(cfg, env, n);
  }

  /** After any number of rounds, at most two hosts have been skipped as local addresses. */
  lemma FewSkippedLocally(cfg: TcpConfig, env: TcpEnvironment, n: nat)
    ensures |SkippedLocally(RunLog(cfg, env, n).trace)| <= 2
  {
    var tr := RunLog(cfg, env, n).trace;
    RunFaithful(cfg, env, n);
    RunCauses(cfg, env, n);
    AboutSteps(tr, 0);
    SkippedOnce(LimitsOf(cfg), START, tr);
    forall h | h in SkippedLocally(tr)
      ensures h in LocalHosts(cfg.net, cfg.base, cfg.total)
    {
      var i: nat :| i < n && Caused(cfg, env, i, Skip(h, LocalAddress));
    }
    DistinctSize(SkippedLocally(tr), LocalHosts(cfg.net, cfg.base, cfg.total));
    AtMostTwoLocal(cfg.net, cfg.base, cfg.total);
  }

  lemma OutcomeOf(w: seq<Event>, h: nat)
    requires TcpSteps(w) && (Passed(w, h) || Settled(w, h))
    ensures HasOutcome(w, h)
    ensures Stray(h) !in w
  {
    assert forall i :: 0 <= i < |w| ==> TcpStep(w[i]);
    if Settled(w, h) {
      SettledLength(w, h);
      assert |w| == 2 && w[1..] == [w[1]];
    } else {
      assert |w| == 1;
      assert w == [w[0]];
    }
  }

  lemma SettledLength(w: seq<Event>, h: nat)
    requires Settled(w, h)
    ensures |w| == 2 || (|w| == 3 && w[2] == Stray(h))
  {
    assert |w[1..]| == |w| - 1;
    if |w| == 3 {
      assert w[2] == w[1..][1];
    }
  }

  /** Every attempt is accounted for. */
  lemma TcpConservation(cfg: TcpConfig, env: TcpEnvironment, n: nat)
    requires StoppedAt(cfg, env, n)
    ensures var ledger := Tally(RunLog(cfg, env, n).trace);
      && cfg.total == ledger.skips + ledger.launches
      && ledger.launches == ledger.answers + ledger.refusals + ledger.expiries
      && |RunLog(cfg, env, n).results| == ledger.answers
  {
    var l, lim := RunLog(cfg, env, n), LimitsOf(cfg);
    RunFaithful(cfg, env, n);
    RunKeepsInv(lim, START, l.trace);
    Conservation(lim, START, l.trace);
    NeverTallied(l.trace);
  }

  lemma {:induction false} NeverTallied(tr: seq<Event>)
    requires TcpSteps(tr)
    ensures Tally(tr).strays == 0 && Tally(tr).withdrawn == 0
  {
    if tr != [] {
      assert tr == [tr[0]] + tr[1..] && TcpStep(tr[0]);
      NeverTallied(tr[1..]);
    }
  }

  // ----- Termination -----

  predicate CanProgress(cfg: TcpConfig) {
    cfg.total == 0 || (cfg.cap >= 1 && cfg.batch >= 1)
  }

  ghost predicate Advancing(env: TcpEnvironment) {
    forall i: nat, j: nat :: j == i + 1 ==> Nanos(env(i).now) < Nanos(env(j).now)
  }

  /** After `n` rounds, the last reaping was at `last`, before the next one. */
  ghost predicate Underway(cfg: TcpConfig, env: TcpEnvironment, n: nat, l: TcpLog, last: int) {
    && l == RunLog(cfg, env, n) && Faithful(cfg, l)
    && Unexpired(ApplyAll(START, l.trace).inflight, last, TimeoutNs(cfg)) && last < Nanos(env(n).now)
  }

  /** The hosts to go, the connections in flight, and the time some connection has left. */
  ghost function Rank(cfg: TcpConfig, env: TcpEnvironment, n: nat, l: TcpLog, last: int): (nat, nat, nat)
    requires Underway(cfg, env, n, l, last)
  {
    var s := ApplyAll(START, l.trace);
    RunKeepsInv(LimitsOf(cfg), START, l.trace);
    (cfg.total - s.cursor, |s.inflight|, Slack(s.inflight, last, TimeoutNs(cfg)))
  }

  lemma RunStarts(cfg: TcpConfig, env: TcpEnvironment)
    ensures Underway(cfg, env, 0, NO_LOG, Nanos(env(0).now) - 1)
  {
    RunFaithful(cfg, env, 0);
  }

  /** A round either moves the cursor, or closes a connection, or takes time from one. */
  lemma RoundNearer(cfg: TcpConfig, env: TcpEnvironment, n: nat, l: TcpLog, last: int)
    requires CanProgress(cfg) && Advancing(env) && !Over(cfg, ApplyAll(START, l.trace))
    requires Underway(cfg, env, n, l, last)
    ensures var l', now := NextLog(cfg, l, env(n)), Nanos(env(n).now);
      && Underway(cfg, env, n + 1, l', now)
      && var r, r' := Rank(cfg, env, n, l, last), Rank(cfg, env, n + 1, l', now);
        r'.0 < r.0 || (r'.0 == r.0 && (r'.1 < r.1 || (r'.1 == r.1 && r'.2 < r.2)))
  {
    var lim, s, r := LimitsOf(cfg), ApplyAll(START, l.trace), env(n);
    var s', now := ApplyAll(START, NextLog(cfg, l, r).trace), Nanos(r.now);
    RunKeepsInv(lim, START, l.trace);
    RoundParts(cfg, l, r);
    NextFaithful(cfg, l, r);
    InitiateMoves(cfg, s.cursor, |s.inflight|, r.attempts, cfg.batch);
    if s'.cursor == s.cursor {
      SlackDrops(s.inflight, s'.inflight, last, now, TimeoutNs(cfg));
    }
  }

  ghost predicate StoppedAt(cfg: TcpConfig, env: TcpEnvironment, n: nat) {
    Over(cfg, ApplyAll(START, RunLog(cfg, env, n).trace))
  }

  ghost predicate Halts(cfg: TcpConfig, env: TcpEnvironment) {
    exists n :: StoppedAt(cfg, env, n)
  }

  /** A run that has stopped stays as it is. */
  lemma {:induction false} StopsForGood(cfg: TcpConfig, env: TcpEnvironment, n: nat, k: nat)
    requires StoppedAt(cfg, env, n) && n <= k
    ensures RunLog(cfg, env, k) == RunLog(cfg, env, n)
    decreases k - n
  {
    if n < k {
      StaysStopped(cfg, env, n);
      StopsForGood(cfg, env, n + 1, k);
    }
  }

  lemma StaysStopped(cfg: TcpConfig, env: TcpEnvironment, n: nat)
    requires StoppedAt(cfg, env, n)
    ensures RunLog(cfg, env, n + 1) == RunLog(cfg, env, n) && StoppedAt(cfg, env, n + 1)
  {
  }

  ghost predicate NotStoppedBefore(cfg: TcpConfig, env: TcpEnvironment, n: nat) {
    forall k: nat :: k < n ==> !StoppedAt(cfg, env, k)
  }

  /** The run has come to round `k` with log `l` without stopping before. */
  ghost predicate OnCourse(cfg: TcpConfig, env: TcpEnvironment, k: nat, l: TcpLog) {
    l == RunLog(cfg, env, k) && NotStoppedBefore(cfg, env, k)
  }

  lemma CourseStarts(cfg: TcpConfig, env: TcpEnvironment)
    ensures OnCourse(cfg, env, 0, NO_LOG)
  {
  }

  /** If it does not stop there either, it goes on, and the round at which it stops is still to come. */
  lemma CourseGoesOn(cfg: TcpConfig, env: TcpEnvironment, k: nat, l: TcpLog, end: nat)
    requires OnCourse(cfg, env, k, l) && !Over(cfg, ApplyAll(START, l.trace)) && StoppedAt(cfg, env, end)
    ensures k < end && OnCourse(cfg, env, k + 1, NextLog(cfg, l, env(k))) && Faithful(cfg, l)
  {
    RunFaithful(cfg, env, k);
    if end <= k {
      StopsForGood(cfg, env, end, k);
    }
  }

  lemma CourseEnds(cfg: TcpConfig, env: TcpEnvironment, k: nat, l: TcpLog)
    requires OnCourse(cfg, env, k, l) && Over(cfg, ApplyAll(START, l.trace))
    ensures l == RunLog(cfg, env, k) && StoppedAt(cfg, env, k) && NotStoppedBefore(cfg, env, k)
  {
  }

  /** With room for a connection and for an attempt, and a clock that advances, every run comes to an end. */
  lemma {:induction false} Terminates(cfg: TcpConfig, env: TcpEnvironment, n: nat, l: TcpLog, last: int)
    requires CanProgress(cfg) && Advancing(env) && Underway(cfg, env, n, l, last)
    ensures Halts(cfg, env)
    decreases Rank(cfg, env, n, l, last).0, Rank(cfg, env, n, l, last).1, Rank(cfg, env, n, l, last).2
  {
    if Over(cfg, ApplyAll(START, l.trace)) {
      assert StoppedAt(cfg, env, n);
    } else {
      RoundNearer(cfg, env, n, l, last);
      Terminates(cfg, env, n + 1, NextLog(cfg, l, env(n)), Nanos(env(n).now));
    }
  }

  lemma {:induction false} Stalls(cfg: TcpConfig, env: TcpEnvironment, n: nat)
    requires !CanProgress(cfg)
    ensures RunLog(cfg, env, n) == NO_LOG
  {
    if n > 0 {
      Stalls(cfg, env, n - 1);
      StalledRound(cfg, RunLog(cfg, env, n - 1), env(n - 1));
    }
  }

  lemma StalledRound(cfg: TcpConfig, l: TcpLog, r: TcpRound)
    requires !CanProgress(cfg) && l == NO_LOG
    ensures NextLog(cfg, l, r) == l
  {
    var s := ApplyAll(START, l.trace);
    assert Initiate(cfg, s.cursor, |s.inflight|, r.attempts, cfg.batch) == [];
    assert Initiated(cfg, l.trace, r) == l.trace;
    NothingPolled(cfg, r.polled, cfg.batch);
    NothingToReap(Nanos(r.now), TimeoutNs(cfg), 0, cfg.total);
  }

  lemma {:induction false} NothingPolled(cfg: TcpConfig, polled: seq<Ready>, n: nat)
    ensures PollEvents(cfg.base, map[], polled, n) == [] && PollResults(cfg, map[], polled, n) == []
  {
    if polled != [] {
      NothingPolled(cfg, polled[1..], n);
    }
  }

  function Idle(i: nat): TcpRound {
    TcpRound([], [], Timespec(i, 0))
  }

  /** A configuration ends every run with an advancing clock if and only if it has no hosts, or room for at least one
      connection and one attempt per batch. */
  lemma TcpHaltsExactly(cfg: TcpConfig)
    ensures CanProgress(cfg) <==> forall env: TcpEnvironment :: Advancing(env) ==> Halts(cfg, env)
  {
    if CanProgress(cfg) {
      forall env: TcpEnvironment | Advancing(env)
        ensures Halts(cfg, env)
      {
        RunStarts(cfg, env);
        Terminates(cfg, env, 0, NO_LOG, Nanos(env(0).now) - 1);
      }
    } else {
      var env: TcpEnvironment := (i: nat) => Idle(i);
      forall n
        ensures !StoppedAt(cfg, env, n)
      {
        Stalls(cfg, env, n);
      }
      assert Advancing(env) && !Halts(cfg, env);
    }
  }
}
