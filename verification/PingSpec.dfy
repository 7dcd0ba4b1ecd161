/** The ping scan, round by round, over the abstract scanner: no slot table, no reverse index, no byte buffers. */
module PingSpec {
  import opened Words
  import opened Wrappers
  import opened Clock
  import opened Icmp
  import opened Ipv4
  import opened ScanModel
  import opened Replies

  /** `cap` and the batch sizes are already limited to `total`; `pid` identifies the scanner in its requests. */
  datatype PingConfig = PingConfig(base: U32, total: nat, net: NetworkInterface, padding: nat, cap: nat,
                                   timeoutMs: U32, sendBatch: nat, recvBatch: nat, pid: U16)

  predicate ValidConfig(cfg: PingConfig) {
    Scannable(cfg.base, cfg.total) && cfg.cap <= cfg.total
  }

  function LimitsOf(cfg: PingConfig): Limits {
    Limits(cfg.total, cfg.cap)
  }

  function TargetsOf(cfg: PingConfig): Targets {
    Targets(cfg.base, cfg.total)
  }

  function TimeoutNs(cfg: PingConfig): int {
    cfg.timeoutMs * NANOSECONDS_PER_MILLISECOND
  }

  // ----- Populating a batch -----

  /** What happens to host `h` when the cursor passes it. */
  function Pass(cfg: PingConfig, found: seq<nat>, h: nat, t: int): Event {
    if LocalSkip(cfg.net, cfg.base, h) then Skip(h, LocalAddress)
    else if h in found then Skip(h, AlreadyFound)
    else Launch(h, t)
  }

  predicate MayPass(cfg: PingConfig, s: State, room: nat) {
    s.cursor < cfg.total && |s.inflight| < cfg.cap && room > 0
  }

  /** The cursor moves on until the range, the probe limit or the batch is exhausted. */
  function Populate(cfg: PingConfig, s: State, room: nat, t: int): seq<Event>
    decreases cfg.total - s.cursor
  {
    if !MayPass(cfg, s, room) then [] else
      var e := Pass(cfg, s.found, s.cursor, t);
      [e] + Populate(cfg, Apply(s, e), if e.Launch? then room - 1 else room, t)
  }

  /** The hosts launched, in order. */
  function Batch(evs: seq<Event>): seq<nat> {
    if evs == [] then [] else
      var rest := Batch(evs[1..]);
      if evs[0].Launch? then [evs[0].host] + rest else rest
  }

  lemma {:induction false} BatchConcat(a: seq<Event>, b: seq<Event>)
    ensures Batch(a + b) == Batch(a) + Batch(b)
  {
    if a == [] {
      assert a + b == b;
    } else {
      assert (a + b)[0] == a[0] && (a + b)[1..] == a[1..] + b;
      BatchConcat(a[1..], b);
    }
  }

  function AsSet(hs: seq<nat>): set<nat> {
    set h | h in hs
  }

  function SentAt(hs: set<nat>, t: int): map<nat, int> {
    map h | h in hs :: t
  }

  lemma {:induction false} PopulateLegal(cfg: PingConfig, s: State, room: nat, t: int)
    ensures Legal(LimitsOf(cfg), s, Populate(cfg, s, room, t))
    decreases cfg.total - s.cursor
  {
    if MayPass(cfg, s, room) {
      var e := Pass(cfg, s.found, s.cursor, t);
      var rest := Populate(cfg, Apply(s, e), if e.Launch? then room - 1 else room, t);
      assert Enabled(LimitsOf(cfg), s, e);
      PopulateLegal(cfg, Apply(s, e), if e.Launch? then room - 1 else room, t);
      assert ([e] + rest)[1..] == rest;
    }
  }

  /** Event `i` is about host `from + i`, and launches it exactly when it needs no skip. */
  ghost predicate PassesAll(cfg: PingConfig, found: seq<nat>, from: nat, t: int, evs: seq<Event>) {
    forall i :: 0 <= i < |evs| ==> evs[i] == Pass(cfg, found, from + i, t)
  }

  lemma {:induction false} PopulatePasses(cfg: PingConfig, s: State, room: nat, t: int)
    ensures PassesAll(cfg, s.found, s.cursor, t, Populate(cfg, s, room, t))
    decreases cfg.total - s.cursor
  {
    if MayPass(cfg, s, room) {
      var e := Pass(cfg, s.found, s.cursor, t);
      var room' := if e.Launch? then room - 1 else room;
      var rest, evs := Populate(cfg, Apply(s, e), room', t), Populate(cfg, s, room, t);
      PopulatePasses(cfg, Apply(s, e), room', t);
      assert evs == [e] + rest;
      forall i | 0 < i < |evs|
        ensures evs[i] == Pass(cfg, s.found, s.cursor + i, t)
      {
        assert evs[i] == rest[i - 1] == Pass(cfg, s.found, Apply(s, e).cursor + (i - 1), t);
      }
    }
  }

  /** The batch stops only when the range ends, the limit of probes is reached or the batch is full. */
  lemma {:induction false} PopulateStops(cfg: PingConfig, s: State, room: nat, t: int)
    ensures var evs := Populate(cfg, s, room, t);
      |Batch(evs)| <= room && !MayPass(cfg, ApplyAll(s, evs), room - |Batch(evs)|)
    decreases cfg.total - s.cursor
  {
    if MayPass(cfg, s, room) {
      var e := Pass(cfg, s.found, s.cursor, t);
      var room' := if e.Launch? then room - 1 else room;
      PopulateStops(cfg, Apply(s, e), room', t);
      assert ([e] + Populate(cfg, Apply(s, e), room', t))[1..] == Populate(cfg, Apply(s, e), room', t);
    }
  }

  /** Whenever one of these events happened, there was room for another probe and another packet. */
  ghost predicate RoomAlong(cfg: PingConfig, active: nat, room: nat, evs: seq<Event>) {
    forall k :: 0 <= k < |evs| ==> active + |Batch(evs[..k])| < cfg.cap && |Batch(evs[..k])| < room
  }

  lemma RoomExtended(cfg: PingConfig, active: nat, room: nat, evs: seq<Event>, e: Event)
    requires RoomAlong(cfg, active, room, evs)
    requires active + |Batch(evs)| < cfg.cap && |Batch(evs)| < room
    ensures RoomAlong(cfg, active, room, evs + [e])
  {
    forall k | 0 <= k < |evs + [e]|
      ensures active + |Batch((evs + [e])[..k])| < cfg.cap && |Batch((evs + [e])[..k])| < room
    {
      assert k < |evs| ==> (evs + [e])[..k] == evs[..k];
      assert k == |evs| ==> (evs + [e])[..k] == evs;
    }
  }

  lemma RoomRest(cfg: PingConfig, active: nat, room: nat, evs: seq<Event>)
    requires evs != [] && RoomAlong(cfg, active, room, evs)
    ensures active < cfg.cap && room > 0
    ensures RoomAlong(cfg, if evs[0].Launch? then active + 1 else active, if evs[0].Launch? then room - 1 else room,
                      evs[1..])
  {
    assert evs[..0] == [];
    var rest, one := evs[1..], if evs[0].Launch? then 1 else 0;
    forall k | 0 <= k < |rest|
      ensures active + one + |Batch(rest[..k])| < cfg.cap && |Batch(rest[..k])| < room - one
    {
      var j := k + 1;
      assert evs[..j][1..] == rest[..k];
      assert active + |Batch(evs[..j])| < cfg.cap && |Batch(evs[..j])| < room;
    }
  }

  /** The batch is the only run of passes that always had room and that cannot go on. */
  lemma {:induction false} PopulateUnique(cfg: PingConfig, s: State, active: nat, room: nat, t: int, evs: seq<Event>)
    requires active == |s.inflight| && forall h :: h in s.inflight ==> h < s.cursor
    requires PassesAll(cfg, s.found, s.cursor, t, evs) && s.cursor + |evs| <= cfg.total
    requires RoomAlong(cfg, active, room, evs) && |Batch(evs)| <= room
    requires s.cursor + |evs| == cfg.total || active + |Batch(evs)| >= cfg.cap || |Batch(evs)| == room
    ensures evs == Populate(cfg, s, room, t)
    decreases |evs|
  {
    if evs != [] {
      var e, rest := evs[0], evs[1..];
      RoomRest(cfg, active, room, evs);
      assert e == Pass(cfg, s.found, s.cursor, t);
      assert PassesAll(cfg, s.found, s.cursor + 1, t, rest) by {
        forall i | 0 <= i < |rest|
          ensures rest[i] == Pass(cfg, s.found, s.cursor + 1 + i, t)
        {
          assert rest[i] == evs[i + 1];
        }
      }
      if e.Launch? {
        Extends(s.inflight, s.cursor, t);
      }
      PopulateUnique(cfg, Apply(s, e), if e.Launch? then active + 1 else active,
                     if e.Launch? then room - 1 else room, t, rest);
    }
  }

  ghost predicate Increasing(hs: seq<nat>) {
    forall i, j :: 0 <= i < j < |hs| ==> hs[i] < hs[j]
  }

  /** Skips and launches of the hosts `from, from + 1, ...` in order. */
  ghost predicate Passes(evs: seq<Event>, from: nat, t: int) {
    forall i :: 0 <= i < |evs| ==>
      (evs[i].Skip? || (evs[i].Launch? && evs[i].sentAt == t)) && evs[i].host == from + i
  }

  lemma PassesRest(evs: seq<Event>, from: nat, t: int)
    requires evs != [] && Passes(evs, from, t)
    ensures Passes(evs[1..], from + 1, t)
  {
    forall i | 0 <= i < |evs[1..]|
      ensures evs[1..][i].Skip? || (evs[1..][i].Launch? && evs[1..][i].sentAt == t)
      ensures evs[1..][i].host == from + 1 + i
    {
      assert evs[1..][i] == evs[i + 1];
    }
  }

  lemma {:induction false} BatchIncreases(evs: seq<Event>, from: nat, t: int)
    requires Passes(evs, from, t)
    ensures Increasing(Batch(evs))
    ensures forall k :: 0 <= k < |Batch(evs)| ==> from <= Batch(evs)[k] < from + |evs|
  {
    if evs != [] {
      PassesRest(evs, from, t);
      BatchIncreases(evs[1..], from + 1, t);
    }
  }

  /** The hosts launched are what is added to the probes in flight. */
  lemma {:induction false} PassesState(s: State, evs: seq<Event>, t: int)
    requires Passes(evs, s.cursor, t)
    ensures ApplyAll(s, evs) == State(s.cursor + |evs|, s.inflight + SentAt(AsSet(Batch(evs)), t), s.found,
                                      s.probed + AsSet(Batch(evs)))
    decreases |evs|
  {
    if evs == [] {
      assert s.inflight + SentAt(AsSet([]), t) == s.inflight;
    } else {
      var e, b := evs[0], Batch(evs[1..]);
      PassesRest(evs, s.cursor, t);
      PassesState(Apply(s, e), evs[1..], t);
      if e.Launch? {
        SentCons(s, e.host, b, t);
      }
    }
  }

  lemma SentCons(s: State, h: nat, b: seq<nat>, t: int)
    ensures s.inflight[h := t] + SentAt(AsSet(b), t) == s.inflight + SentAt(AsSet([h] + b), t)
    ensures s.probed + {h} + AsSet(b) == s.probed + AsSet([h] + b)
  {
    assert AsSet([h] + b) == {h} + AsSet(b);
  }

  // ----- Sending a batch -----

  /** One return of the send call: `Sent(0)` and `Refused` stand for an error, `WouldBlock` for a full socket buffer
      and for what waiting on the socket then reports. */
  datatype SendOutcome = Sent(count: nat) | WouldBlock(writable: bool) | Refused

  /** How many of `n` packets get out.  The kernel takes no more than it was given; once the outcomes are used up it
      refuses. */
  function Delivered(outcomes: seq<SendOutcome>, n: nat): (sent: nat)
    ensures sent <= n
  {
    if n == 0 || outcomes == [] then 0 else
      match outcomes[0]
      case Sent(k) =>
        if k == 0 then 0 else
          var took := if k <= n then k else n;
          took + Delivered(outcomes[1..], n - took)
      case WouldBlock(writable) => if writable then Delivered(outcomes[1..], n) else 0
      case Refused => 0
  }

  /** How often the socket buffer was full on the way. */
  function Drops(outcomes: seq<SendOutcome>, n: nat): nat {
    if n == 0 || outcomes == [] then 0 else
      match outcomes[0]
      case Sent(k) => if k == 0 then 0 else Drops(outcomes[1..], n - if k <= n then k else n)
      case WouldBlock(writable) => 1 + if writable then Drops(outcomes[1..], n) else 0
      case Refused => 0
  }

  /** The packets that these returns have taken, and how many of them reported a full buffer. */
  ghost function Taken(outcomes: seq<SendOutcome>): nat {
    if outcomes == [] then 0 else (if outcomes[0].Sent? then outcomes[0].count else 0) + Taken(outcomes[1..])
  }

  ghost function Blocked(outcomes: seq<SendOutcome>): nat {
    if outcomes == [] then 0 else (if outcomes[0].WouldBlock? then 1 else 0) + Blocked(outcomes[1..])
  }

  /** A return after which the batch is given up. */
  ghost predicate GivesUp(o: SendOutcome) {
    o == Refused || o == Sent(0) || o == WouldBlock(false)
  }

  /** What the first `k` returns took got out, and no more than the batch: they are those up to the one with which the
      batch was all out, or up to the first that makes the scanner give it up.  Full buffers are counted among them and
      at the one that made it give up. */
  lemma {:induction false} DeliveredExact(outcomes: seq<SendOutcome>, n: nat) returns (k: nat)
    ensures k <= |outcomes| && forall i :: 0 <= i < k ==> !GivesUp(outcomes[i]) && Taken(outcomes[..i]) < n
    ensures Taken(outcomes[..k]) >= n || k == |outcomes| || GivesUp(outcomes[k])
    ensures Delivered(outcomes, n) == if Taken(outcomes[..k]) < n then Taken(outcomes[..k]) else n
    ensures Drops(outcomes, n) == Blocked(outcomes[..k])
            + if Taken(outcomes[..k]) < n && k < |outcomes| && outcomes[k].WouldBlock? then 1 else 0
  {
    if n == 0 || outcomes == [] || GivesUp(outcomes[0]) {
      k := 0;
    } else {
      var o, rest := outcomes[0], outcomes[1..];
      var took := if o.WouldBlock? then 0 else if o.count <= n then o.count else n;
      var j := DeliveredExact(rest, n - took);
      k := j + 1;
      assert outcomes[..k] == [o] + rest[..j];
      forall i | 0 <= i < k
        ensures !GivesUp(outcomes[i]) && Taken(outcomes[..i]) < n
      {
        if i > 0 {
          assert outcomes[..i] == [o] + rest[..i - 1] && outcomes[i] == rest[i - 1];
        }
      }
    }
  }

  function SendEvents(cfg: PingConfig, s: State, t: int, outcomes: seq<SendOutcome>): seq<Event> {
    var evs := Populate(cfg, s, cfg.sendBatch, t);
    var batch := Batch(evs);
    var sent := Delivered(outcomes, |batch|);
    if sent == |batch| then evs else evs + [Rollback(AsSet(batch[sent..]))]
  }

  predicate SendSucceeds(cfg: PingConfig, s: State, t: int, outcomes: seq<SendOutcome>) {
    var batch := Batch(Populate(cfg, s, cfg.sendBatch, t));
    Delivered(outcomes, |batch|) == |batch|
  }

  lemma PassesAreSkipsOrLaunches(cfg: PingConfig, found: seq<nat>, from: nat, t: int, evs: seq<Event>)
    requires PassesAll(cfg, found, from, t, evs)
    ensures Passes(evs, from, t) && RollbackFree(evs)
  {
    forall i | 0 <= i < |evs|
      ensures (evs[i].Skip? || (evs[i].Launch? && evs[i].sentAt == t)) && evs[i].host == from + i
    {
      assert evs[i] == Pass(cfg, found, from + i, t);
    }
  }

  function CountSkips(evs: seq<Event>): nat {
    if evs == [] then 0 else (if evs[0].Skip? then 1 else 0) + CountSkips(evs[1..])
  }

  lemma {:induction false} SkipsAndLaunches(evs: seq<Event>, from: nat, t: int)
    requires Passes(evs, from, t)
    ensures |evs| == CountSkips(evs) + |Batch(evs)|
    ensures CountSkips(evs) == 0 <==> forall e :: e in evs ==> !e.Skip?
  {
    if evs != [] {
      PassesRest(evs, from, t);
      SkipsAndLaunches(evs[1..], from + 1, t);
      assert evs == [evs[0]] + evs[1..];
    }
  }

  /** The launch of the `k`-th host of the batch, and the run of events from there on. */
  lemma {:induction false} LaunchSplits(evs: seq<Event>, from: nat, t: int, k: nat)
    requires Passes(evs, from, t) && k < |Batch(evs)|
    ensures var i := Batch(evs)[k] - from;
      0 <= i < |evs| && evs[i].Launch? && Batch(evs[i..]) == Batch(evs)[k..]
  {
    PassesRest(evs, from, t);
    var rest := evs[1..];
    if evs[0].Launch? && k == 0 {
      assert evs[0..] == evs;
    } else {
      var k' := if evs[0].Launch? then k - 1 else k;
      LaunchSplits(rest, from + 1, t, k');
      var i := Batch(rest)[k'] - (from + 1);
      assert rest[i..] == evs[i + 1..];
    }
  }

  lemma {:induction false} IncreasingSize(b: seq<nat>)
    requires Increasing(b)
    ensures |AsSet(b)| == |b|
  {
    if b != [] {
      var init := b[..|b| - 1];
      IncreasingSize(init);
      assert AsSet(b) == AsSet(init) + {b[|b| - 1]};
    }
  }

  lemma SplitSet(b: seq<nat>, k: nat)
    requires k <= |b|
    ensures AsSet(b) == AsSet(b[..k]) + AsSet(b[k..])
  {
    assert b == b[..k] + b[k..];
  }

  /** Moving the cursor back by the unsent launches never takes it past the first of them, and takes it exactly there
      if and only if no host was skipped behind that one. */
  lemma RewindSkips(evs: seq<Event>, from: nat, t: int, sent: nat)
    requires Passes(evs, from, t) && sent < |Batch(evs)|
    ensures var first, rewound := Batch(evs)[sent], from + |evs| - (|Batch(evs)| - sent);
      && first <= rewound
      && (rewound == first <==> forall e :: e in evs && e.Skip? ==> e.host < first)
  {
    BatchIncreases(evs, from, t);
    LaunchSplits(evs, from, t, sent);
    var first := Batch(evs)[sent];
    var i := first - from;
    var tail := evs[i..];
    forall j | 0 <= j < |tail|
      ensures tail[j] == evs[i + j]
    {
    }
    assert Passes(tail, first, t);
    SkipsAndLaunches(tail, first, t);
    assert forall e :: e in tail ==> e in evs && (e.Skip? || e.Launch?) && e.host >= first;
    forall e | e in evs && e.Skip? && e.host >= first
      ensures e in tail
    {
      var j :| 0 <= j < |evs| && evs[j] == e;
      assert e == tail[j - i];
    }
  }

  /** Sending, as a whole: a legal run of steps.  If it succeeds, the batch is in flight.  If it fails, exactly the
      probes sent are added to those that were in flight before. */
  lemma SendExact(cfg: PingConfig, s: State, t: int, outcomes: seq<SendOutcome>)
    requires Inv(LimitsOf(cfg), s)
    ensures var evs, b := SendEvents(cfg, s, t, outcomes), Batch(Populate(cfg, s, cfg.sendBatch, t));
      var sent, s' := Delivered(outcomes, |b|), ApplyAll(s, SendEvents(cfg, s, t, outcomes));
      && Legal(LimitsOf(cfg), s, evs)
      && s'.inflight == s.inflight + SentAt(AsSet(b[..sent]), t)
      && s'.probed == s.probed + AsSet(b[..sent])
      && s'.found == s.found
      && s'.cursor == s.cursor + |Populate(cfg, s, cfg.sendBatch, t)| - (|b| - sent)
      && (SendSucceeds(cfg, s, t, outcomes) ==> RollbackFree(evs))
  {
    var evs := Populate(cfg, s, cfg.sendBatch, t);
    var b := Batch(evs);
    var sent := Delivered(outcomes, |b|);
    PopulateLegal(cfg, s, cfg.sendBatch, t);
    PopulatePasses(cfg, s, cfg.sendBatch, t);
    PassesAreSkipsOrLaunches(cfg, s.found, s.cursor, t, evs);
    PassesState(s, evs, t);
    if sent == |b| {
      assert b[..sent] == b;
    } else {
      var undo := Rollback(AsSet(b[sent..]));
      RollbackEnabled(LimitsOf(cfg), s, evs, t, sent);
      RollbackExact(LimitsOf(cfg), s, evs, t, sent);
      Concat(LimitsOf(cfg), s, evs, [undo]);
      Single(LimitsOf(cfg), ApplyAll(s, evs), undo);
    }
  }

  /** None of the hosts between `first` and `end` is skipped. */
  ghost predicate NoneSkipped(cfg: PingConfig, found: seq<nat>, first: nat, end: nat) {
    forall h :: first < h < end ==> !LocalSkip(cfg.net, cfg.base, h) && h !in found
  }

  /** The cursor where the batch ended, before a rollback. */
  function BatchEnd(cfg: PingConfig, s: State, t: int): nat {
    s.cursor + |Populate(cfg, s, cfg.sendBatch, t)|
  }

  /** The first host of the batch whose packet did not get out. */
  function FirstUnsent(cfg: PingConfig, s: State, t: int, outcomes: seq<SendOutcome>): nat
    requires !SendSucceeds(cfg, s, t, outcomes)
  {
    var batch := Batch(Populate(cfg, s, cfg.sendBatch, t));
    batch[Delivered(outcomes, |batch|)]
  }

  /** The cursor after a failed flush.  It never goes back past the first unsent host, so no sent host is met again; it
      stops exactly there if and only if none of the hosts behind that one, up to where the batch ended, is a local
      address or already found. */
  lemma RewindExact(cfg: PingConfig, s: State, t: int, outcomes: seq<SendOutcome>)
    requires Inv(LimitsOf(cfg), s) && !SendSucceeds(cfg, s, t, outcomes)
    ensures var first, s' := FirstUnsent(cfg, s, t, outcomes), ApplyAll(s, SendEvents(cfg, s, t, outcomes));
      && first <= s'.cursor
      && (s'.cursor == first <==> NoneSkipped(cfg, s.found, first, BatchEnd(cfg, s, t)))
  {
    var evs := Populate(cfg, s, cfg.sendBatch, t);
    var c := RewoundCursor(cfg, s, t, outcomes);
    PopulatePasses(cfg, s, cfg.sendBatch, t);
    RewindBehind(cfg, s.found, s.cursor, t, evs, Delivered(outcomes, |Batch(evs)|));
  }

  lemma RewoundCursor(cfg: PingConfig, s: State, t: int, outcomes: seq<SendOutcome>) returns (c: nat)
    requires Inv(LimitsOf(cfg), s)
    ensures c == ApplyAll(s, SendEvents(cfg, s, t, outcomes)).cursor
    ensures var evs := Populate(cfg, s, cfg.sendBatch, t);
      c == s.cursor + |evs| - (|Batch(evs)| - Delivered(outcomes, |Batch(evs)|))
  {
    SendExact(cfg, s, t, outcomes);
    c := ApplyAll(s, SendEvents(cfg, s, t, outcomes)).cursor;
  }

  lemma RewindBehind(cfg: PingConfig, found: seq<nat>, from: nat, t: int, evs: seq<Event>, sent: nat)
    requires PassesAll(cfg, found, from, t, evs) && sent < |Batch(evs)|
    ensures var first, rewound := Batch(evs)[sent], from + |evs| - (|Batch(evs)| - sent);
      && first <= rewound
      && (rewound == first <==> NoneSkipped(cfg, found, first, from + |evs|))
  {
    var first := Batch(evs)[sent];
    PassesAreSkipsOrLaunches(cfg, found, from, t, evs);
    RewindSkips(evs, from, t, sent);
    LaunchSplits(evs, from, t, sent);
    if NoneSkipped(cfg, found, first, from + |evs|) {
      forall e | e in evs && e.Skip?
        ensures e.host < first
      {
        var i :| 0 <= i < |evs| && evs[i] == e;
        assert e == Pass(cfg, found, from + i, t);
      }
    } else {
      var h :| first < h < from + |evs| && !(!LocalSkip(cfg.net, cfg.base, h) && h !in found);
      assert evs[h - from] == Pass(cfg, found, h, t);
    }
  }

  lemma RollbackEnabled(lim: Limits, s: State, evs: seq<Event>, t: int, sent: nat)
    requires Inv(lim, s) && Passes(evs, s.cursor, t) && sent < |Batch(evs)|
    ensures var b := Batch(evs);
      && Enabled(lim, ApplyAll(s, evs), Rollback(AsSet(b[sent..])))
      && |AsSet(b[sent..])| == |b| - sent
  {
    var b := Batch(evs);
    BatchIncreases(evs, s.cursor, t);
    PassesState(s, evs, t);
    RewindSkips(evs, s.cursor, t, sent);
    IncreasingSize(b[sent..]);
    SplitSet(b, sent);
    SplitOrder(b, sent);
    Unsend(s, AsSet(b[..sent]), AsSet(b[sent..]), t, b[sent]);
  }

  lemma RollbackExact(lim: Limits, s: State, evs: seq<Event>, t: int, sent: nat)
    requires Inv(lim, s) && Passes(evs, s.cursor, t) && sent < |Batch(evs)|
    ensures var b, s1 := Batch(evs), ApplyAll(s, evs);
      && |b| - sent <= s1.cursor
      && Apply(s1, Rollback(AsSet(b[sent..])))
      == State(s1.cursor - (|b| - sent), s.inflight + SentAt(AsSet(b[..sent]), t), s.found,
               s.probed + AsSet(b[..sent]))
  {
    var b := Batch(evs);
    RollbackEnabled(lim, s, evs, t, sent);
    BatchIncreases(evs, s.cursor, t);
    PassesState(s, evs, t);
    SplitSet(b, sent);
    SplitOrder(b, sent);
    Unsend(s, AsSet(b[..sent]), AsSet(b[sent..]), t, b[sent]);
  }

  lemma SplitOrder(b: seq<nat>, k: nat)
    requires Increasing(b) && k < |b|
    ensures forall h :: h in AsSet(b[..k]) ==> h < b[k]
    ensures forall h :: h in AsSet(b[k..]) ==> b[k] <= h
  {
  }

  lemma Unsend(s: State, kept: set<nat>, unsent: set<nat>, t: int, first: nat)
    requires forall h :: h in kept ==> h < first
    requires forall h :: h in unsent ==> first <= h
    requires s.cursor <= first && Behind(s) && s.inflight.Keys <= s.probed
    ensures s.inflight + SentAt(kept + unsent, t) - unsent == s.inflight + SentAt(kept, t)
    ensures s.probed + (kept + unsent) - unsent == s.probed + kept
    ensures forall h :: h in s.probed + kept ==> h < first
  {
  }

  // ----- A scan whose rewound cursor passes an unsent host -----

  const EDGE_BASE: U32 := 0x0A00_0000

  /** The interface that owns 10.0.0.1, with a mask of 32 bits. */
  const EDGE := Interface("ppp0", Some(EDGE_BASE + 1), Some(WORD - 1), true, true, false, true)

  /** A scan of 10.0.0.0/31 from that interface, in one batch. */
  ghost predicate EdgeScan(cfg: PingConfig) {
    && cfg.total < WORD && ParseCidr(EDGE_BASE, Some(31)) == Some(Range(cfg.base, cfg.total))
    && Selectable(EDGE, EDGE_BASE + 1) && cfg.net == Describe(EDGE, cfg.base, cfg.total)
    && cfg.cap == cfg.total && cfg.sendBatch == cfg.total
  }

  lemma EdgeRange()
    ensures ParseCidr(EDGE_BASE, Some(31)) == Some(Range(EDGE_BASE, 2))
  {
    PairOfHosts(EDGE_BASE, 31);
  }

  lemma EdgeInterface()
    ensures Describe(EDGE, EDGE_BASE, 2)
            == NetworkInterface("ppp0", EDGE_BASE + 1, EDGE_BASE + 1, EDGE_BASE + 1, true)
  {
    assert Pow2(0) == 1;
    Pow2Of32();
    MaskValue(32);
    ContiguousSubnet(EDGE_BASE + 1, 32);
    assert TargetEnd(EDGE_BASE, 2) == EDGE_BASE + 1;
  }

  lemma EdgeExists() returns (cfg: PingConfig)
    ensures EdgeScan(cfg)
  {
    EdgeRange();
    cfg := PingConfig(EDGE_BASE, 2, Describe(EDGE, EDGE_BASE, 2), 0, 2, 800, 2, 2, 1);
  }

  /** Its two hosts: the interface's own address is the upper one, and is skipped. */
  lemma EdgeValues(cfg: PingConfig)
    requires EdgeScan(cfg)
    ensures cfg.base == EDGE_BASE && cfg.total == cfg.cap == cfg.sendBatch == 2 && ValidConfig(cfg)
    ensures !LocalSkip(cfg.net, cfg.base, 0) && LocalSkip(cfg.net, cfg.base, 1)
  {
    EdgeRange();
    EdgeInterface();
  }

  lemma EdgeBatch(cfg: PingConfig, t: int)
    requires EdgeScan(cfg)
    ensures Populate(cfg, START, cfg.sendBatch, t) == [Launch(0, t), Skip(1, LocalAddress)]
    ensures Batch(Populate(cfg, START, cfg.sendBatch, t)) == [0]
  {
    EdgeValues(cfg);
    var evs := [Launch(0, t), Skip(1, LocalAddress)];
    assert Batch(evs[..0]) == [] && evs[..1] == [Launch(0, t)] && Batch([Launch(0, t)][1..]) == [];
    assert evs[1..] == [Skip(1, LocalAddress)] && evs[1..][1..] == [];
    assert forall i :: 0 <= i < 2 ==> evs[i] == Pass(cfg, [], i, t);
    PopulateUnique(cfg, START, 0, cfg.sendBatch, t, evs);
  }

  /** There is such a scan, and when nothing of its batch gets out the cursor is put back to host 1 only: host 0 was
      launched and withdrawn, and a scan that went on from there would not try it again. */
  lemma RewindCanPassUnsent(t: int) returns (cfg: PingConfig)
    ensures EdgeScan(cfg) && ValidConfig(cfg) && !LocalSkip(cfg.net, cfg.base, 0)
    ensures !SendSucceeds(cfg, START, t, [Refused])
    ensures var s' := ApplyAll(START, SendEvents(cfg, START, t, [Refused])); s'.cursor == 1 && 0 !in s'.probed
  {
    cfg := EdgeExists();
    EdgeValues(cfg);
    EdgeBatch(cfg, t);
    SendExact(cfg, START, t, [Refused]);
    assert Delivered([Refused], 1) == 0;
  }
}
