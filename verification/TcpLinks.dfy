/** How the TCP scanner's slots stand for open connections: facts about slots, descriptors and registrations that its
    methods rely on. */
module TcpLinks {
  import opened Words
  import opened Clock
  import opened Ipv4
  import opened ScanModel
  import opened Expiry
  import opened ProbeTable
  import opened ScanLinks
  import opened TcpRuns
  import opened Kernels

  datatype TcpProbe = TcpProbe(active: bool, sock: int, destIp: U32, sendTime: Time)

  const EMPTY_PROBE := TcpProbe(false, -1, 0, Timespec(0, 0))

  function Bare(p: TcpProbe): ProbeInfo {
    ProbeInfo(p.active, p.destIp, 0, p.sendTime)
  }

  /** The slots without their descriptors. */
  function Plain(slots: seq<TcpProbe>): seq<ProbeInfo> {
    seq(|slots|, i requires 0 <= i < |slots| => Bare(slots[i]))
  }

  function Vacated(slots: seq<TcpProbe>, s: nat): seq<TcpProbe>
    requires s < |slots|
  {
    slots[s := slots[s].(active := false)]
  }

  lemma PlainUpdate(slots: seq<TcpProbe>, s: nat, p: TcpProbe)
    requires s < |slots|
    ensures Plain(slots[s := p]) == Plain(slots)[s := Bare(p)]
    ensures Plain(Vacated(slots, s)) == Freed(Plain(slots), s)
  {
  }

  /** The open descriptors are the foreign ones and the sockets of the active slots; the registrations take each such
      socket to its slot; and each such socket, and nothing else, is connected to its slot's target. */
  ghost predicate Wired(slots: seq<TcpProbe>, foreign: set<nat>, k: Sockets) {
    && (forall s :: 0 <= s < |slots| && slots[s].active ==>
          && slots[s].sock >= 0 && slots[s].sock in k.epoll && k.epoll[slots[s].sock] == s
          && slots[s].destIp in k.conn && k.conn[slots[s].destIp] == slots[s].sock)
    && (forall fd :: fd in k.epoll ==>
          k.epoll[fd] < |slots| && slots[k.epoll[fd]].active && slots[k.epoll[fd]].sock == fd)
    && (forall a :: a in k.conn ==> k.conn[a] in k.epoll && slots[k.epoll[k.conn[a]]].destIp == a)
    && k.open == foreign + k.epoll.Keys && foreign !! k.epoll.Keys
  }

  /** In other words. */
  lemma WiredExactly(slots: seq<TcpProbe>, foreign: set<nat>, k: Sockets)
    requires Wired(slots, foreign, k)
    ensures k.open - foreign == set s: nat | s < |slots| && slots[s].active && slots[s].sock >= 0 :: slots[s].sock
    ensures forall s, s' :: 0 <= s < s' < |slots| && slots[s].active && slots[s'].active ==>
              slots[s].sock != slots[s'].sock && slots[s].destIp != slots[s'].destIp
    ensures forall fd, s :: fd in k.epoll && k.epoll[fd] == s <==>
              0 <= s < |slots| && slots[s].active && fd >= 0 && slots[s].sock == fd
  {
    var socks := set s: nat | s < |slots| && slots[s].active && slots[s].sock >= 0 :: slots[s].sock;
    forall fd | fd in k.epoll
      ensures fd in socks
    {
      var s := k.epoll[fd];
      assert s < |slots| && slots[s].active && slots[s].sock == fd;
    }
    assert socks == k.epoll.Keys;
  }

  lemma WiredStart(slots: seq<TcpProbe>, foreign: set<nat>)
    requires forall s :: 0 <= s < |slots| ==> !slots[s].active
    ensures Wired(slots, foreign, Sockets(foreign, map[], map[]))
  {
    assert Sockets(foreign, map[], map[]).epoll.Keys == {};
  }

  /** With no active slot, nothing is left open. */
  lemma WiredEnd(slots: seq<TcpProbe>, foreign: set<nat>, k: Sockets)
    requires Wired(slots, foreign, k) && forall s :: 0 <= s < |slots| ==> !slots[s].active
    ensures k == Sockets(foreign, map[], map[])
  {
    assert k.epoll == map[];
    assert k.conn == map[];
  }

  /** An attempt that fails leaves everything as it was. */
  lemma Abandoned(slots: seq<TcpProbe>, foreign: set<nat>, k: Sockets, fd: nat, peer: U32)
    requires Wired(slots, foreign, k) && fd !in k.open && peer !in k.conn
    ensures Closing(Opening(k, fd), fd) == k
    ensures Closing(Connecting(Opening(k, fd), peer, fd), fd) == k
  {
    assert k.epoll - {fd} == k.epoll;
    assert k.open + {fd} - {fd} == k.open;
    assert (map a | a in k.conn && k.conn[a] != fd :: k.conn[a]) == k.conn;
    var c := k.conn[peer := fd];
    assert (map a | a in c && c[a] != fd :: c[a]) == k.conn;
  }

  lemma WiredOpen(slots: seq<TcpProbe>, foreign: set<nat>, k: Sockets, fd: nat, peer: U32, s: nat, p: TcpProbe)
    requires Wired(slots, foreign, k) && fd !in k.open && peer !in k.conn
    requires s < |slots| && !slots[s].active && p.active && p.sock == fd && p.destIp == peer
    ensures Wired(slots[s := p], foreign, Registering(Connecting(Opening(k, fd), peer, fd), fd, s))
  {
    assert k.epoll[fd := s].Keys == k.epoll.Keys + {fd};
  }

  lemma WiredClose(slots: seq<TcpProbe>, foreign: set<nat>, k: Sockets, s: nat)
    requires Wired(slots, foreign, k) && s < |slots| && slots[s].active
    ensures slots[s].sock >= 0 && slots[s].sock in k.epoll && slots[s].sock in k.open && slots[s].sock !in foreign
    ensures Wired(Vacated(slots, s), foreign, Closing(Unregistering(k, slots[s].sock), slots[s].sock))
  {
    var fd: nat := slots[s].sock;
    var k' := Closing(Unregistering(k, fd), fd);
    assert k'.epoll == k.epoll - {fd};
    assert k'.epoll.Keys == k.epoll.Keys - {fd};
  }

  // ----- The tables as a whole -----

  /** The table and the counters stand for the abstract state, and the open descriptors and registrations are those of
      the active slots. */
  ghost predicate Tables(cfg: TcpConfig, tr: seq<Event>, cursor: nat, active: nat, slots: seq<TcpProbe>,
                         index: seq<int>, foreign: set<nat>, k: Sockets) {
    && Stands(cfg.base, LimitsOf(cfg), tr, cursor, active, Plain(slots), index)
    && TcpSteps(tr)
    && Wired(slots, foreign, k)
  }

  /** With every slot free and nothing open, the tables stand for the beginning of a run. */
  lemma TablesStart(cfg: TcpConfig, slots: seq<TcpProbe>, index: seq<int>, foreign: set<nat>) returns (l: TcpLog)
    requires ValidConfig(cfg) && |slots| == cfg.cap && |index| == cfg.total
    requires forall s :: 0 <= s < |slots| ==> !slots[s].active
    requires forall h :: 0 <= h < |index| ==> index[h] == -1
    ensures l == NO_LOG && Tables(cfg, l.trace, 0, 0, slots, index, foreign, Sockets(foreign, map[], map[]))
    ensures Named(cfg.base, l.results, ApplyAll(START, l.trace).found)
  {
    l := NO_LOG;
    CountBounds(Plain(slots));
    assert forall s :: 0 <= s < |slots| ==> Plain(slots)[s] == Bare(slots[s]);
    assert InFlight(Plain(slots), index) == map[];
    WiredStart(slots, foreign);
  }

  lemma TablesFacts(cfg: TcpConfig, tr: seq<Event>, cursor: nat, active: nat, slots: seq<TcpProbe>, index: seq<int>,
                    foreign: set<nat>, k: Sockets)
    requires Tables(cfg, tr, cursor, active, slots, index, foreign, k)
    ensures cursor == ApplyAll(START, tr).cursor <= cfg.total && active == |ApplyAll(START, tr).inflight| <= cfg.cap
  {
    StandsFacts(cfg.base, LimitsOf(cfg), tr, cursor, active, Plain(slots), index);
  }

  /** The host at the cursor is connected to by no descriptor. */
  lemma NewPeer(cfg: TcpConfig, tr: seq<Event>, cursor: nat, active: nat, slots: seq<TcpProbe>, index: seq<int>,
                foreign: set<nat>, k: Sockets, peer: U32)
    requires Tables(cfg, tr, cursor, active, slots, index, foreign, k) && peer == cfg.base + cursor
    ensures peer !in k.conn
  {
    CursorFacts(LimitsOf(cfg), tr);
    PeersInFlight(cfg, slots, index, active, ApplyAll(START, tr).inflight, foreign, k, peer);
  }

  /** While there is room for a connection there is a free slot; without connections all are free. */
  lemma TablesFree(cfg: TcpConfig, tr: seq<Event>, cursor: nat, active: nat, slots: seq<TcpProbe>, index: seq<int>,
                   foreign: set<nat>, k: Sockets)
    requires Tables(cfg, tr, cursor, active, slots, index, foreign, k)
    ensures active < cfg.cap ==> !forall s :: 0 <= s < |slots| ==> slots[s].active
    ensures active == 0 ==> forall s :: 0 <= s < |slots| ==> !slots[s].active
  {
    CountBounds(Plain(slots));
    assert forall s :: 0 <= s < |slots| ==> Plain(slots)[s] == Bare(slots[s]);
  }

  lemma TablesPass(cfg: TcpConfig, tr: seq<Event>, cursor: nat, active: nat, slots: seq<TcpProbe>, index: seq<int>,
                   foreign: set<nat>, k: Sockets, reason: Reason)
    requires Tables(cfg, tr, cursor, active, slots, index, foreign, k) && cursor < cfg.total && reason != AlreadyFound
    ensures Tables(cfg, tr + [Skip(cursor, reason)], cursor + 1, active, slots, index, foreign, k)
  {
    StandsSkip(cfg.base, LimitsOf(cfg), tr, cursor, active, Plain(slots), index, reason);
  }

  lemma TablesOpen(cfg: TcpConfig, tr: seq<Event>, cursor: nat, active: nat, slots: seq<TcpProbe>, index: seq<int>,
                   foreign: set<nat>, k: Sockets, fd: nat, s: nat, p: TcpProbe)
    requires Tables(cfg, tr, cursor, active, slots, index, foreign, k)
    requires cursor < cfg.total && active < cfg.cap && s < |slots| && !slots[s].active
    requires fd !in k.open && p.destIp !in k.conn && p.active && p.sock == fd && p.destIp == cfg.base + cursor
    ensures Tables(cfg, tr + [Launch(cursor, Nanos(p.sendTime))], cursor + 1, active + 1, slots[s := p],
                   index[cursor := s], foreign, Registering(Connecting(Opening(k, fd), p.destIp, fd), fd, s))
  {
    CursorUnfound(LimitsOf(cfg), tr);
    PlainUpdate(slots, s, p);
    StandsLaunch(cfg.base, LimitsOf(cfg), tr, cursor, active, Plain(slots), index, s, Bare(p));
    WiredOpen(slots, foreign, k, fd, p.destIp, s, p);
  }

  /** The host of an active slot is in flight and has that slot. */
  lemma TablesOwner(cfg: TcpConfig, tr: seq<Event>, cursor: nat, active: nat, slots: seq<TcpProbe>, index: seq<int>,
                    foreign: set<nat>, k: Sockets, s: nat) returns (h: nat)
    requires Tables(cfg, tr, cursor, active, slots, index, foreign, k) && s < |slots| && slots[s].active
    ensures h < |index| == cfg.total && index[h] == s && slots[s].destIp == cfg.base + h && active > 0
    ensures h in ApplyAll(START, tr).inflight
    ensures slots[s].sock >= 0 && slots[s].sock in k.epoll && slots[s].sock in k.open && slots[s].sock !in foreign
  {
    assert Plain(slots)[s] == Bare(slots[s]);
    h := LinkedOwner(cfg.base, LimitsOf(cfg), Plain(slots), index, active, ApplyAll(START, tr).inflight, s);
    LinkedClose(cfg.base, LimitsOf(cfg), Plain(slots), index, active, ApplyAll(START, tr).inflight, h);
    WiredClose(slots, foreign, k, s);
  }

  lemma TablesClose(cfg: TcpConfig, tr: seq<Event>, cursor: nat, active: nat, slots: seq<TcpProbe>, index: seq<int>,
                    foreign: set<nat>, k: Sockets, s: nat, e: Event)
    requires Tables(cfg, tr, cursor, active, slots, index, foreign, k) && s < |slots| && slots[s].active
    requires (e.Answer? || e.Refuse?) && slots[s].destIp == cfg.base + e.host
    ensures active > 0 && slots[s].sock >= 0 && e.host < |index|
    ensures Tables(cfg, tr + [e], cursor, active - 1, Vacated(slots, s), index[e.host := -1], foreign,
                   Closing(Unregistering(k, slots[s].sock), slots[s].sock))
    ensures ApplyAll(START, tr + [e]) == Apply(ApplyAll(START, tr), e)
    ensures Distinct(ApplyAll(START, tr + [e]).found)
  {
    var h := TablesOwner(cfg, tr, cursor, active, slots, index, foreign, k, s);
    StandsGone(cfg, tr, cursor, active, slots, index, s, h, e);
    WiredClose(slots, foreign, k, s);
  }

  lemma StandsGone(cfg: TcpConfig, tr: seq<Event>, cursor: nat, active: nat, slots: seq<TcpProbe>, index: seq<int>,
                   s: nat, h: nat, e: Event)
    requires Stands(cfg.base, LimitsOf(cfg), tr, cursor, active, Plain(slots), index) && TcpSteps(tr)
    requires (e.Answer? || e.Refuse?) && e.host == h && h in ApplyAll(START, tr).inflight
    requires s < |slots| && h < |index| && index[h] == s && active > 0
    ensures Stands(cfg.base, LimitsOf(cfg), tr + [e], cursor, active - 1, Plain(Vacated(slots, s)), index[h := -1])
    ensures TcpSteps(tr + [e]) && ApplyAll(START, tr + [e]) == Apply(ApplyAll(START, tr), e)
    ensures Distinct(ApplyAll(START, tr + [e]).found)
  {
    StandsClose(cfg.base, LimitsOf(cfg), tr, cursor, active, Plain(slots), index, e);
    PlainUpdate(slots, s, slots[s]);
    FoundDistinct(LimitsOf(cfg), tr + [e]);
  }

  lemma FoundDistinct(lim: Limits, tr: seq<Event>)
    requires Legal(lim, START, tr)
    ensures Distinct(ApplyAll(START, tr).found)
  {
    RunKeepsInv(lim, START, tr);
  }

  // ----- Reaping -----

  /** The tables when the slots below `s` have been looked at. */
  ghost predicate Shutting(cfg: TcpConfig, slots: seq<TcpProbe>, index': seq<int>, active: nat, m: map<nat, int>,
                           index: seq<int>, s: nat, now: Time, foreign: set<nat>, k: Sockets) {
    && Reaping(cfg.base, LimitsOf(cfg), Plain(slots), index', active, m, index, s, Nanos(now), TimeoutNs(cfg))
    && Wired(slots, foreign, k)
  }

  lemma ShutStart(cfg: TcpConfig, slots: seq<TcpProbe>, index: seq<int>, active: nat, m: map<nat, int>, now: Time,
                  foreign: set<nat>, k: Sockets)
    requires Linked(cfg.base, LimitsOf(cfg), Plain(slots), index, active, m) && Wired(slots, foreign, k)
    ensures Shutting(cfg, slots, index, active, m, index, 0, now, foreign, k)
  {
    ReapingStart(cfg.base, LimitsOf(cfg), Plain(slots), index, active, m, Nanos(now), TimeoutNs(cfg));
  }

  lemma ShutEnd(cfg: TcpConfig, slots: seq<TcpProbe>, index': seq<int>, active: nat, m: map<nat, int>,
                index: seq<int>, now: Time, foreign: set<nat>, k: Sockets)
    requires Shutting(cfg, slots, index', active, m, index, |slots|, now, foreign, k)
    requires forall h :: h in m ==> h < |index| && index[h] < |slots|
    ensures Linked(cfg.base, LimitsOf(cfg), Plain(slots), index', active, Survivors(m, Nanos(now), TimeoutNs(cfg)))
    ensures Wired(slots, foreign, k)
  {
    ReapingEnd(cfg.base, LimitsOf(cfg), Plain(slots), index', active, m, index, Nanos(now), TimeoutNs(cfg));
  }

  /** Tables from which the connections over age have gone are the abstract tables after reaping. */
  lemma TablesReap(cfg: TcpConfig, tr: seq<Event>, cursor: nat, active: nat, slots: seq<TcpProbe>, index: seq<int>,
                   now: Time, active': nat, slots': seq<TcpProbe>, index': seq<int>, foreign: set<nat>, k: Sockets)
    requires Stands(cfg.base, LimitsOf(cfg), tr, cursor, active, Plain(slots), index) && TcpSteps(tr)
    requires Linked(cfg.base, LimitsOf(cfg), Plain(slots'), index', active',
                    Survivors(ApplyAll(START, tr).inflight, Nanos(now), TimeoutNs(cfg)))
    requires Wired(slots', foreign, k)
    ensures var tr' := tr + ReapEvents(cfg, ApplyAll(START, tr), now);
      && Tables(cfg, tr', cursor, active', slots', index', foreign, k)
      && ApplyAll(START, tr').found == ApplyAll(START, tr).found
  {
    var m := ApplyAll(START, tr).inflight;
    StandsReap(cfg.base, LimitsOf(cfg), tr, cursor, active, Plain(slots), index, Nanos(now), TimeoutNs(cfg),
               active', Plain(slots'), index');
    ExpiriesOnly(m, Nanos(now), TimeoutNs(cfg), 0, cfg.total);
  }

  lemma ShutPass(cfg: TcpConfig, slots: seq<TcpProbe>, index': seq<int>, active: nat, m: map<nat, int>,
                 index: seq<int>, s: nat, now: Time, foreign: set<nat>, k: Sockets)
    requires Shutting(cfg, slots, index', active, m, index, s, now, foreign, k) && s < |slots|
    requires slots[s].active ==> Nanos(now) - Nanos(slots[s].sendTime) <= TimeoutNs(cfg)
    ensures Shutting(cfg, slots, index', active, m, index, s + 1, now, foreign, k)
  {
    assert Plain(slots)[s] == Bare(slots[s]);
    ReapingPass(cfg.base, LimitsOf(cfg), Plain(slots), index', active, m, index, s, Nanos(now), TimeoutNs(cfg));
  }

  lemma ShutClose(cfg: TcpConfig, slots: seq<TcpProbe>, index': seq<int>, active: nat, m: map<nat, int>,
                  index: seq<int>, s: nat, now: Time, foreign: set<nat>, k: Sockets) returns (h: nat)
    requires Shutting(cfg, slots, index', active, m, index, s, now, foreign, k) && s < |slots|
    requires slots[s].active && Nanos(now) - Nanos(slots[s].sendTime) > TimeoutNs(cfg)
    ensures h < |index'| && active > 0
    ensures slots[s].sock >= 0 && slots[s].sock in k.epoll && slots[s].sock in k.open && slots[s].sock !in foreign
    ensures Shutting(cfg, Vacated(slots, s), index'[h := -1], active - 1, m, index, s + 1, now, foreign,
                     Closing(Unregistering(k, slots[s].sock), slots[s].sock))
  {
    assert Plain(slots)[s] == Bare(slots[s]);
    h := ReapingClose(cfg.base, LimitsOf(cfg), Plain(slots), index', active, m, index, s, Nanos(now), TimeoutNs(cfg));
    PlainUpdate(slots, s, slots[s]);
    WiredClose(slots, foreign, k, s);
  }

  // ----- Events -----

  /** The event comes from the connection of an active slot, whose number it carries. */
  ghost predicate Raises(base: U32, m: map<nat, int>, slots: seq<TcpProbe>, e: Raised) {
    && e.data < |slots| && slots[e.data].active && slots[e.data].sock == e.fd && slots[e.data].destIp == e.ready.peer
    && InFlightPeer(base, m, e.ready.peer) && Nanos(slots[e.data].sendTime) == m[e.ready.peer - base]
  }

  /** So do the events from `i` on, no two from the same slot. */
  ghost predicate Pending(base: U32, m: map<nat, int>, slots: seq<TcpProbe>, events: seq<Raised>, i: nat) {
    && (forall j :: i <= j < |events| ==> Raises(base, m, slots, events[j]))
    && (forall j, k :: i <= j < k < |events| ==> events[j].data != events[k].data)
  }

  lemma PendingRest(base: U32, m: map<nat, int>, slots: seq<TcpProbe>, events: seq<Raised>, i: nat)
    requires Pending(base, m, slots, events, i) && i < |events|
    ensures Pending(base, m, Vacated(slots, events[i].data), events, i + 1)
  {
  }

  /** The reports for the events that found an open port. */
  function Reported(cfg: TcpConfig, m: map<nat, int>, events: seq<Raised>): seq<TcpHostResult> {
    if events == [] then [] else
      var r, rest := events[0].ready, Reported(cfg, m, events[1..]);
      if r.error == 0 && InFlightPeer(cfg.base, m, r.peer)
      then [TcpHostResult(r.peer, cfg.port, RoundTrip(r.at, m[r.peer - cfg.base]))] + rest
      else rest
  }

  /** Each event stands for the step it should. */
  ghost predicate Credits(base: U32, steps: seq<Event>, events: seq<Raised>) {
    |steps| == |events| && forall j :: 0 <= j < |events| ==>
      events[j].ready.peer >= base && steps[j] == Outcome(base, events[j].ready)
  }

  /** What the kernel reports is what the abstract scanner polls. */
  lemma {:induction false} ReportAgrees(cfg: TcpConfig, conn: map<U32, nat>, epoll: map<nat, nat>, m: map<nat, int>,
                                        polled: seq<Ready>, n: nat)
    requires forall a :: a in conn && conn[a] in epoll <==> InFlightPeer(cfg.base, m, a)
    ensures var events := Report(conn, epoll, polled, n);
      && Credits(cfg.base, PollEvents(cfg.base, m, polled, n), events)
      && PollResults(cfg, m, polled, n) == Reported(cfg, m, events)
  {
    if !(polled == [] || n == 0) {
      var r := polled[0];
      if r.peer in conn && conn[r.peer] in epoll {
        var h := r.peer - cfg.base;
        var rest := Report(conn - {r.peer}, epoll, polled[1..], n - 1);
        ReportAgrees(cfg, conn - {r.peer}, epoll, m - {h}, polled[1..], n - 1);
        ReportSound(conn - {r.peer}, epoll, polled[1..], n - 1);
        assert ([Raised(conn[r.peer], epoll[conn[r.peer]], r)] + rest)[1..] == rest;
        ReportedWithout(cfg, m, h, rest);
      } else {
        ReportAgrees(cfg, conn, epoll, m, polled[1..], n);
      }
    }
  }

  /** An event as the kernel reports it: from a registered connection, with the data of its registration. */
  ghost predicate Genuine(conn: map<U32, nat>, epoll: map<nat, nat>, e: Raised) {
    && e.ready.peer in conn && conn[e.ready.peer] == e.fd
    && e.fd in epoll && epoll[e.fd] == e.data
  }

  /** Every report is genuine, and no connection is reported twice. */
  lemma {:induction false} ReportSound(conn: map<U32, nat>, epoll: map<nat, nat>, polled: seq<Ready>, n: nat)
    ensures forall j :: 0 <= j < |Report(conn, epoll, polled, n)| ==>
              Genuine(conn, epoll, Report(conn, epoll, polled, n)[j])
    ensures forall j, k :: 0 <= j < k < |Report(conn, epoll, polled, n)| ==>
              Report(conn, epoll, polled, n)[j].ready.peer != Report(conn, epoll, polled, n)[k].ready.peer
  {
    if !(polled == [] || n == 0) {
      var r := polled[0];
      var events := Report(conn, epoll, polled, n);
      if r.peer in conn && conn[r.peer] in epoll {
        var rest := Report(conn - {r.peer}, epoll, polled[1..], n - 1);
        ReportSound(conn - {r.peer}, epoll, polled[1..], n - 1);
        assert events == [Raised(conn[r.peer], epoll[conn[r.peer]], r)] + rest;
        forall j | 0 <= j < |rest|
          ensures Genuine(conn, epoll, rest[j]) && rest[j].ready.peer != r.peer
        {
          assert Genuine(conn - {r.peer}, epoll, rest[j]);
        }
      } else {
        ReportSound(conn, epoll, polled[1..], n);
        assert events == Report(conn, epoll, polled[1..], n);
      }
    }
  }

  lemma {:induction false} ReportedWithout(cfg: TcpConfig, m: map<nat, int>, h: nat, events: seq<Raised>)
    requires forall j :: 0 <= j < |events| ==> InFlightPeer(cfg.base, m - {h}, events[j].ready.peer)
    ensures Reported(cfg, m - {h}, events) == Reported(cfg, m, events)
  {
    if events != [] {
      assert InFlightPeer(cfg.base, m - {h}, events[0].ready.peer);
      ReportedWithout(cfg, m, h, events[1..]);
    }
  }

  /** So every event is credited to the host whose connection raised it. */
  lemma ReportPending(cfg: TcpConfig, slots: seq<TcpProbe>, index: seq<int>, active: nat, m: map<nat, int>,
                      foreign: set<nat>, k: Sockets, polled: seq<Ready>, n: nat)
    requires Linked(cfg.base, LimitsOf(cfg), Plain(slots), index, active, m) && Wired(slots, foreign, k)
    ensures var events := Report(k.conn, k.epoll, polled, n);
      && Credits(cfg.base, PollEvents(cfg.base, m, polled, n), events)
      && PollResults(cfg, m, polled, n) == Reported(cfg, m, events)
      && Pending(cfg.base, m, slots, events, 0)
  {
    forall a: U32
      ensures a in k.conn && k.conn[a] in k.epoll <==> InFlightPeer(cfg.base, m, a)
    {
      PeersInFlight(cfg, slots, index, active, m, foreign, k, a);
    }
    ReportAgrees(cfg, k.conn, k.epoll, m, polled, n);
    ReportSound(k.conn, k.epoll, polled, n);
    var events := Report(k.conn, k.epoll, polled, n);
    forall j | 0 <= j < |events|
      ensures Raises(cfg.base, m, slots, events[j])
    {
      EventSlot(cfg, slots, index, active, m, foreign, k, events[j]);
    }
    OneSlotEach(cfg.base, m, slots, events);
  }

  lemma EventSlot(cfg: TcpConfig, slots: seq<TcpProbe>, index: seq<int>, active: nat, m: map<nat, int>,
                  foreign: set<nat>, k: Sockets, e: Raised)
    requires Linked(cfg.base, LimitsOf(cfg), Plain(slots), index, active, m) && Wired(slots, foreign, k)
    requires Genuine(k.conn, k.epoll, e) && InFlightPeer(cfg.base, m, e.ready.peer)
    ensures Raises(cfg.base, m, slots, e)
  {
    SentAtSlot(cfg, slots, index, active, m, e.data);
  }

  lemma OneSlotEach(base: U32, m: map<nat, int>, slots: seq<TcpProbe>, events: seq<Raised>)
    requires forall j :: 0 <= j < |events| ==> Raises(base, m, slots, events[j])
    requires forall j, k :: 0 <= j < k < |events| ==> events[j].ready.peer != events[k].ready.peer
    ensures Pending(base, m, slots, events, 0)
  {
  }

  lemma PeersInFlight(cfg: TcpConfig, slots: seq<TcpProbe>, index: seq<int>, active: nat, m: map<nat, int>,
                      foreign: set<nat>, k: Sockets, a: U32)
    requires Linked(cfg.base, LimitsOf(cfg), Plain(slots), index, active, m) && Wired(slots, foreign, k)
    ensures a in k.conn <==> InFlightPeer(cfg.base, m, a)
  {
    if a in k.conn {
      var s := k.epoll[k.conn[a]];
      assert Plain(slots)[s].active && Plain(slots)[s].destIp == a;
      var h := LinkedOwner(cfg.base, LimitsOf(cfg), Plain(slots), index, active, m, s);
    }
    if InFlightPeer(cfg.base, m, a) {
      LinkedClose(cfg.base, LimitsOf(cfg), Plain(slots), index, active, m, a - cfg.base);
      var s := index[a - cfg.base];
      assert Plain(slots)[s] == Bare(slots[s]);
    }
  }

  lemma SentAtSlot(cfg: TcpConfig, slots: seq<TcpProbe>, index: seq<int>, active: nat, m: map<nat, int>, s: nat)
    requires Linked(cfg.base, LimitsOf(cfg), Plain(slots), index, active, m) && s < |slots| && slots[s].active
    ensures slots[s].destIp >= cfg.base && slots[s].destIp - cfg.base in m
    ensures m[slots[s].destIp - cfg.base] == Nanos(slots[s].sendTime)
  {
    assert Plain(slots)[s] == Bare(slots[s]);
    var h := LinkedOwner(cfg.base, LimitsOf(cfg), Plain(slots), index, active, m, s);
    LinkedClose(cfg.base, LimitsOf(cfg), Plain(slots), index, active, m, h);
  }

  lemma ReportedOne(cfg: TcpConfig, m: map<nat, int>, e: Raised)
    requires InFlightPeer(cfg.base, m, e.ready.peer)
    ensures Reported(cfg, m, [e]) == if e.ready.error == 0
      then [TcpHostResult(e.ready.peer, cfg.port, RoundTrip(e.ready.at, m[e.ready.peer - cfg.base]))] else []
  {
    assert Reported(cfg, m, [e][1..]) == [];
  }

  lemma {:induction false} ReportedConcat(cfg: TcpConfig, m: map<nat, int>, a: seq<Raised>, b: seq<Raised>)
    ensures Reported(cfg, m, a + b) == Reported(cfg, m, a) + Reported(cfg, m, b)
  {
    if a == [] {
      assert a + b == b;
    } else {
      assert (a + b)[0] == a[0] && (a + b)[1..] == a[1..] + b;
      ReportedConcat(cfg, m, a[1..], b);
    }
  }

  /** The first `i` events have been taken in. */
  ghost predicate Handled(cfg: TcpConfig, tr0: seq<Event>, results0: seq<TcpHostResult>, m: map<nat, int>,
                          steps: seq<Event>, events: seq<Raised>, i: nat, tr: seq<Event>, results: seq<TcpHostResult>) {
    && i <= |events| == |steps|
    && tr == tr0 + steps[..i] && results == results0 + Reported(cfg, m, events[..i])
  }

  lemma HandledNone(cfg: TcpConfig, tr0: seq<Event>, results0: seq<TcpHostResult>, m: map<nat, int>,
                    steps: seq<Event>, events: seq<Raised>)
    requires |events| == |steps|
    ensures Handled(cfg, tr0, results0, m, steps, events, 0, tr0, results0)
  {
  }

  lemma HandledOne(cfg: TcpConfig, tr0: seq<Event>, results0: seq<TcpHostResult>, m: map<nat, int>,
                   steps: seq<Event>, events: seq<Raised>, i: nat, tr: seq<Event>, results: seq<TcpHostResult>)
    requires Credits(cfg.base, steps, events) && i < |events|
    requires Handled(cfg, tr0, results0, m, steps, events, i, tr, results)
    ensures Handled(cfg, tr0, results0, m, steps, events, i + 1, tr + [Outcome(cfg.base, events[i].ready)],
                    results + Reported(cfg, m, [events[i]]))
  {
    assert events[..i + 1] == events[..i] + [events[i]];
    ReportedConcat(cfg, m, events[..i], [events[i]]);
  }

  lemma HandledAll(cfg: TcpConfig, tr0: seq<Event>, results0: seq<TcpHostResult>, m: map<nat, int>,
                   steps: seq<Event>, events: seq<Raised>, tr: seq<Event>, results: seq<TcpHostResult>)
    requires Handled(cfg, tr0, results0, m, steps, events, |events|, tr, results)
    ensures tr == tr0 + steps && results == results0 + Reported(cfg, m, events)
  {
    assert events[..|events|] == events && steps[..|steps|] == steps;
  }

  // ----- Starting connections -----

  /** The host at the cursor has not been found. */
  lemma CursorUnfound(lim: Limits, tr: seq<Event>)
    requires Legal(lim, START, tr) && TcpSteps(tr)
    ensures ApplyAll(START, tr).cursor !in ApplyAll(START, tr).found
  {
    RunKeepsInv(lim, START, tr);
    StepsKeepFoundProbed(lim, START, tr);
  }

  /** What is still to be done of a batch, from attempt `k` on, added to the trace gives the whole. */
  ghost predicate Planned(cfg: TcpConfig, all: seq<Event>, tr: seq<Event>, cursor: nat, active: nat,
                          attempts: seq<Attempt>, k: nat, room: nat)
    requires k <= |attempts|
  {
    all == tr + Initiate(cfg, cursor, active, attempts[k..], room)
  }

  lemma PlanStarts(cfg: TcpConfig, all: seq<Event>, tr: seq<Event>, cursor: nat, active: nat, attempts: seq<Attempt>)
    requires all == tr + Initiate(cfg, cursor, active, attempts, cfg.batch)
    ensures Planned(cfg, all, tr, cursor, active, attempts, 0, cfg.batch)
  {
    assert attempts[0..] == attempts;
  }

  /** One more host of a batch. */
  lemma PlanStep(cfg: TcpConfig, all: seq<Event>, tr: seq<Event>, cursor: nat, active: nat, attempts: seq<Attempt>,
                 k: nat, room: nat) returns (tr': seq<Event>, active': nat, k': nat)
    requires cursor < cfg.total && active < cfg.cap && room > 0 && k <= |attempts|
    requires Planned(cfg, all, tr, cursor, active, attempts, k, room)
    ensures var e := Try(cfg, cursor, if k < |attempts| then attempts[k] else NO_SOCKET);
      tr' == tr + [e] && active' == active + if e.Launch? then 1 else 0
    ensures k' == (if LocalSkip(cfg.net, cfg.base, cursor) || k == |attempts| then k else k + 1) <= |attempts|
    ensures Planned(cfg, all, tr', cursor + 1, active', attempts, k', room - 1)
  {
    if k < |attempts| {
      assert First(attempts[k..]) == attempts[k] && Rest(attempts[k..]) == attempts[k + 1..];
    }
    var e := Try(cfg, cursor, First(attempts[k..]));
    var more := if LocalSkip(cfg.net, cfg.base, cursor) then attempts[k..] else Rest(attempts[k..]);
    tr', active' := tr + [e], active + if e.Launch? then 1 else 0;
    k' := if LocalSkip(cfg.net, cfg.base, cursor) || k == |attempts| then k else k + 1;
    Regroup(tr, [e], Initiate(cfg, cursor + 1, active', more, room - 1));
  }

  lemma PlanDone(cfg: TcpConfig, all: seq<Event>, tr: seq<Event>, cursor: nat, active: nat, attempts: seq<Attempt>,
                 k: nat, room: nat)
    requires cursor >= cfg.total || active >= cfg.cap || room == 0
    requires k <= |attempts| && Planned(cfg, all, tr, cursor, active, attempts, k, room)
    ensures tr == all
  {
  }
}
