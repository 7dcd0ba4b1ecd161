/** What both scanners have in common: how a table of slots, an index and two counters stand for the abstract scanner
    that a trace of steps leads to. */
module ScanLinks {
  import opened Words
  import opened Clock
  import opened ScanModel
  import opened Expiry
  import opened ProbeTable

  function Min(a: nat, b: nat): nat {
    if a <= b then a else b
  }

  /** A batch size limited to the number of hosts and to what an unsigned int holds. */
  function SafeBatchSize(size: nat, hosts: nat): nat {
    Min(Min(size, hosts), WORD - 1)
  }

  /** The addresses of the found hosts. */
  ghost predicate Addresses(base: U32, ips: seq<U32>, hosts: seq<nat>) {
    |ips| == |hosts| && forall k :: 0 <= k < |ips| ==> ips[k] == base + hosts[k]
  }

  lemma AddressFound(base: U32, ips: seq<U32>, hosts: seq<nat>, h: nat)
    requires Addresses(base, ips, hosts)
    ensures base + h in ips <==> h in hosts
  {
    if h in hosts {
      var k :| 0 <= k < |hosts| && hosts[k] == h;
      assert ips[k] == base + h;
    }
  }

  lemma Regroup(a: seq<Event>, b: seq<Event>, c: seq<Event>)
    ensures a + b + c == a + (b + c)
  {
  }

  /** What a legal trace guarantees about the host at the cursor. */
  lemma CursorFacts(lim: Limits, tr: seq<Event>)
    requires Legal(lim, START, tr)
    ensures var m := ApplyAll(START, tr);
      m.cursor <= lim.total && m.cursor !in m.inflight && |m.inflight| <= lim.cap
  {
    RunKeepsInv(lim, START, tr);
  }

  /** Adding one step to a trace. */
  lemma Extended(lim: Limits, tr: seq<Event>, e: Event)
    requires Legal(lim, START, tr) && Enabled(lim, ApplyAll(START, tr), e)
    ensures Legal(lim, START, tr + [e]) && ApplyAll(START, tr + [e]) == Apply(ApplyAll(START, tr), e)
  {
    Concat(lim, START, tr, [e]);
    Single(lim, ApplyAll(START, tr), e);
  }

  lemma TallyExtended(tr: seq<Event>, e: Event)
    ensures Tally(tr + [e]) == Sum(Tally(tr), Entry(e))
  {
    TallyConcat(tr, [e]);
    TallySingle(e);
  }

  /** The cursor, the probe counter and the tables stand for the state that a legal trace leads to. */
  ghost predicate Stands(base: U32, lim: Limits, tr: seq<Event>, cursor: nat, active: nat,
                         slots: seq<ProbeInfo>, index: seq<int>) {
    && Legal(lim, START, tr)
    && cursor == ApplyAll(START, tr).cursor
    && Linked(base, lim, slots, index, active, ApplyAll(START, tr).inflight)
  }

  lemma StandsFacts(base: U32, lim: Limits, tr: seq<Event>, cursor: nat, active: nat, slots: seq<ProbeInfo>,
                    index: seq<int>)
    requires Stands(base, lim, tr, cursor, active, slots, index)
    ensures var m := ApplyAll(START, tr);
      && cursor <= lim.total && cursor !in m.inflight && active == |m.inflight| <= lim.cap
      && (cursor < lim.total ==> index[cursor] < 0)
      && (active < lim.cap ==> exists s :: 0 <= s < |slots| && !slots[s].active)
  {
    CursorFacts(lim, tr);
    LinkedFacts(base, lim, slots, index, active, ApplyAll(START, tr).inflight);
  }

  lemma StandsSkip(base: U32, lim: Limits, tr: seq<Event>, cursor: nat, active: nat, slots: seq<ProbeInfo>,
                   index: seq<int>,
                   reason: Reason)
    requires Stands(base, lim, tr, cursor, active, slots, index) && cursor < lim.total
    requires reason == AlreadyFound ==> cursor in ApplyAll(START, tr).found
    ensures Stands(base, lim, tr + [Skip(cursor, reason)], cursor + 1, active, slots, index)
    ensures ApplyAll(START, tr + [Skip(cursor, reason)]) == Apply(ApplyAll(START, tr), Skip(cursor, reason))
  {
    Extended(lim, tr, Skip(cursor, reason));
  }

  lemma StandsLaunch(base: U32, lim: Limits, tr: seq<Event>, cursor: nat, active: nat, slots: seq<ProbeInfo>,
                     index: seq<int>,
                     s: nat, p: ProbeInfo)
    requires Stands(base, lim, tr, cursor, active, slots, index)
    requires cursor < lim.total && active < lim.cap && cursor !in ApplyAll(START, tr).found
    requires s < |slots| && !slots[s].active && p.active && p.destIp == base + cursor
    ensures Stands(base, lim, tr + [Launch(cursor, Nanos(p.sendTime))], cursor + 1, active + 1, slots[s := p],
                   index[cursor := s])
    ensures ApplyAll(START, tr + [Launch(cursor, Nanos(p.sendTime))])
            == Apply(ApplyAll(START, tr), Launch(cursor, Nanos(p.sendTime)))
  {
    StandsFacts(base, lim, tr, cursor, active, slots, index);
    Extended(lim, tr, Launch(cursor, Nanos(p.sendTime)));
    LinkedLaunch(base, lim, slots, index, active, ApplyAll(START, tr).inflight, cursor, s, p);
  }

  lemma StandsStray(base: U32, lim: Limits, tr: seq<Event>, cursor: nat, active: nat, slots: seq<ProbeInfo>,
                    index: seq<int>,
                    h: nat)
    requires Stands(base, lim, tr, cursor, active, slots, index) && h < lim.total
    requires h !in ApplyAll(START, tr).inflight && h !in ApplyAll(START, tr).found
    ensures index[h] == -1
    ensures Stands(base, lim, tr + [Stray(h)], cursor, active, slots, index)
    ensures ApplyAll(START, tr + [Stray(h)]) == Apply(ApplyAll(START, tr), Stray(h))
  {
    Extended(lim, tr, Stray(h));
  }

  lemma StandsClose(base: U32, lim: Limits, tr: seq<Event>, cursor: nat, active: nat, slots: seq<ProbeInfo>,
                    index: seq<int>,
                    e: Event)
    requires Stands(base, lim, tr, cursor, active, slots, index)
    requires (e.Answer? || e.Refuse? || e.Expire?) && e.host in ApplyAll(START, tr).inflight
    ensures e.host < |index| && 0 <= index[e.host] < |slots| && slots[index[e.host]].active && active > 0
    ensures slots[index[e.host]].destIp == base + e.host
    ensures Stands(base, lim, tr + [e], cursor, active - 1, Freed(slots, index[e.host]), index[e.host := -1])
    ensures ApplyAll(START, tr + [e]) == Apply(ApplyAll(START, tr), e)
  {
    Extended(lim, tr, e);
    LinkedClose(base, lim, slots, index, active, ApplyAll(START, tr).inflight, e.host);
  }

  /** Slots may have been freed, and nothing else has changed. */
  ghost predicate OnlyFreed(before: seq<ProbeInfo>, after: seq<ProbeInfo>) {
    |after| == |before| && forall s :: 0 <= s < |after| && after[s].active ==> after[s] == before[s]
  }

  // ----- Reaping -----

  /** The probes left in flight when the slots below `s` have been looked at. */
  ghost function LeftAt(m: map<nat, int>, index: seq<int>, s: nat, now: int, timeout: int): map<nat, int> {
    map h | h in m && (h >= |index| || index[h] >= s || now - m[h] <= timeout) :: m[h]
  }

  /** The tables when the slots below `s` have been looked at, having started from `index` and `m`. */
  ghost predicate Reaping(base: U32, lim: Limits, slots: seq<ProbeInfo>, index': seq<int>, active: nat,
                          m: map<nat, int>, index: seq<int>, s: nat, now: int, timeout: int) {
    var left := LeftAt(m, index, s, now, timeout);
    && |index'| == |index|
    && Linked(base, lim, slots, index', active, left)
    && forall h :: h in left && h < |index| ==> index'[h] == index[h]
  }

  lemma ReapingStart(base: U32, lim: Limits, slots: seq<ProbeInfo>, index: seq<int>, active: nat, m: map<nat, int>,
                     now: int, timeout: int)
    requires Linked(base, lim, slots, index, active, m)
    ensures Reaping(base, lim, slots, index, active, m, index, 0, now, timeout)
  {
    assert LeftAt(m, index, 0, now, timeout) == m;
  }

  /** A slot that is free or not over age is passed. */
  lemma ReapingPass(base: U32, lim: Limits, slots: seq<ProbeInfo>, index': seq<int>, active: nat, m: map<nat, int>,
                    index: seq<int>, s: nat, now: int, timeout: int)
    requires Reaping(base, lim, slots, index', active, m, index, s, now, timeout) && s < |slots|
    requires slots[s].active ==> now - Nanos(slots[s].sendTime) <= timeout
    ensures Reaping(base, lim, slots, index', active, m, index, s + 1, now, timeout)
  {
    assert LeftAt(m, index, s + 1, now, timeout) == LeftAt(m, index, s, now, timeout);
  }

  /** A slot that is over age is freed. */
  lemma ReapingClose(base: U32, lim: Limits, slots: seq<ProbeInfo>, index': seq<int>, active: nat, m: map<nat, int>,
                     index: seq<int>, s: nat, now: int, timeout: int) returns (h: nat)
    requires Reaping(base, lim, slots, index', active, m, index, s, now, timeout) && s < |slots|
    requires slots[s].active && now - Nanos(slots[s].sendTime) > timeout
    ensures h < |index'| && index'[h] == s && slots[s].destIp == base + h && active > 0
    ensures Reaping(base, lim, Freed(slots, s), index'[h := -1], active - 1, m, index, s + 1, now, timeout)
  {
    var left := LeftAt(m, index, s, now, timeout);
    h := LinkedOwner(base, lim, slots, index', active, left, s);
    LinkedClose(base, lim, slots, index', active, left, h);
    IndexExact(base, slots, index');
    assert LeftAt(m, index, s + 1, now, timeout) == left - {h};
  }

  lemma ReapingEnd(base: U32, lim: Limits, slots: seq<ProbeInfo>, index': seq<int>, active: nat, m: map<nat, int>,
                   index: seq<int>, now: int, timeout: int)
    requires Reaping(base, lim, slots, index', active, m, index, |slots|, now, timeout)
    requires forall h :: h in m ==> h < |index| && index[h] < |slots|
    ensures Linked(base, lim, slots, index', active, Survivors(m, now, timeout))
  {
    assert LeftAt(m, index, |slots|, now, timeout) == Survivors(m, now, timeout);
  }

  /** A table from which the probes over age have gone is the abstract table after reaping. */
  lemma StandsReap(base: U32, lim: Limits, tr: seq<Event>, cursor: nat, active: nat, slots: seq<ProbeInfo>,
                   index: seq<int>, now: int, timeout: int, active': nat, slots': seq<ProbeInfo>, index': seq<int>)
    requires Stands(base, lim, tr, cursor, active, slots, index)
    requires Linked(base, lim, slots', index', active', Survivors(ApplyAll(START, tr).inflight, now, timeout))
    ensures var evs := Expiries(ApplyAll(START, tr).inflight, now, timeout, 0, lim.total);
      && Stands(base, lim, tr + evs, cursor, active', slots', index')
      && active' <= active && Tally(tr + evs).expiries == Tally(tr).expiries + (active - active')
      && ApplyAll(START, tr + evs).found == ApplyAll(START, tr).found
  {
    var m := ApplyAll(START, tr);
    var evs, left := Expiries(m.inflight, now, timeout, 0, lim.total), Survivors(m.inflight, now, timeout);
    RunKeepsInv(lim, START, tr);
    ReapExact(lim, m, now, timeout);
    Concat(lim, START, tr, evs);
    TallyConcat(tr, evs);
    LinkedFacts(base, lim, slots, index, active, m.inflight);
    LinkedFacts(base, lim, slots', index', active', left);
  }
}
