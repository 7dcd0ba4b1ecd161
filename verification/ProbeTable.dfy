/** The ping scanner's slot table and its reverse index, as sequences, and what each update does to the probes in
    flight that the two of them stand for. */
module ProbeTable {
  import opened Words
  import opened Clock
  import opened Icmp
  import opened ScanModel

  datatype ProbeInfo = ProbeInfo(active: bool, destIp: U32, seqNo: U16, sendTime: Time)

  const EMPTY_SLOT := ProbeInfo(false, 0, 0, Timespec(0, 0))

  /** Every entry of the index is -1 or an active slot that probes the entry's host, and every active slot is in it. */
  ghost predicate Agree(base: U32, slots: seq<ProbeInfo>, index: seq<int>) {
    && (forall h :: 0 <= h < |index| && index[h] != -1 ==>
         0 <= index[h] < |slots| && slots[index[h]].active && slots[index[h]].destIp == base + h)
    && (forall s :: 0 <= s < |slots| && slots[s].active ==> s in index)
  }

  function CountActive(slots: seq<ProbeInfo>): nat {
    if slots == [] then 0 else CountActive(slots[..|slots| - 1]) + if slots[|slots| - 1].active then 1 else 0
  }

  lemma {:induction false} CountUpdate(slots: seq<ProbeInfo>, s: nat, p: ProbeInfo)
    requires s < |slots|
    ensures CountActive(slots[s := p]) + (if slots[s].active then 1 else 0)
            == CountActive(slots) + if p.active then 1 else 0
  {
    var last := |slots| - 1;
    if s < last {
      CountUpdate(slots[..last], s, p);
      assert slots[s := p][..last] == slots[..last][s := p];
    } else {
      assert slots[s := p][..last] == slots[..last];
    }
  }

  lemma {:induction false} CountBounds(slots: seq<ProbeInfo>)
    ensures CountActive(slots) <= |slots|
    ensures CountActive(slots) == 0 <==> forall s :: 0 <= s < |slots| ==> !slots[s].active
    ensures CountActive(slots) == |slots| <==> forall s :: 0 <= s < |slots| ==> slots[s].active
  {
    if slots != [] {
      var init := slots[..|slots| - 1];
      CountBounds(init);
      assert forall s :: 0 <= s < |init| ==> init[s] == slots[s];
    }
  }

  /** The send time of every host that the index gives a slot. */
  ghost function InFlight(slots: seq<ProbeInfo>, index: seq<int>): map<nat, int> {
    map h: nat | h < |index| && 0 <= index[h] < |slots| :: Nanos(slots[index[h]].sendTime)
  }

  /** `index[h]` is `s` exactly when slot `s` is active and probes host `h`; so no two active slots hold one host. */
  lemma IndexExact(base: U32, slots: seq<ProbeInfo>, index: seq<int>)
    requires Agree(base, slots, index)
    ensures forall h, s :: 0 <= h < |index| && 0 <= s < |slots| ==>
              (index[h] == s <==> slots[s].active && slots[s].destIp == base + h)
    ensures forall s, s' :: 0 <= s < s' < |slots| && slots[s].active && slots[s'].active ==>
              slots[s].destIp != slots[s'].destIp
  {
    forall h, s | 0 <= h < |index| && 0 <= s < |slots| && slots[s].active && slots[s].destIp == base + h
      ensures index[h] == s
    {
      var h' :| 0 <= h' < |index| && index[h'] == s;
    }
  }

  lemma EmptyTable(base: U32, slots: seq<ProbeInfo>, index: seq<int>)
    requires forall s :: 0 <= s < |slots| ==> slots[s] == EMPTY_SLOT
    requires forall h :: 0 <= h < |index| ==> index[h] == -1
    ensures Agree(base, slots, index) && CountActive(slots) == 0 && InFlight(slots, index) == map[]
  {
    CountBounds(slots);
  }

  lemma Opened(base: U32, slots: seq<ProbeInfo>, index: seq<int>, s: nat, h: nat, p: ProbeInfo)
    requires Agree(base, slots, index)
    requires s < |slots| && !slots[s].active && h < |index| && index[h] == -1
    requires p.active && p.destIp == base + h
    ensures Agree(base, slots[s := p], index[h := s])
    ensures InFlight(slots[s := p], index[h := s]) == InFlight(slots, index)[h := Nanos(p.sendTime)]
  {
    var slots', index' := slots[s := p], index[h := s];
    assert index'[h] == s;
    forall s' | 0 <= s' < |slots'| && slots'[s'].active && s' != s
      ensures s' in index'
    {
      var h' :| 0 <= h' < |index| && index[h'] == s';
      assert index'[h'] == s';
    }
  }

  function Freed(slots: seq<ProbeInfo>, s: nat): seq<ProbeInfo>
    requires s < |slots|
  {
    slots[s := slots[s].(active := false)]
  }

  lemma Closed(base: U32, slots: seq<ProbeInfo>, index: seq<int>, h: nat)
    requires Agree(base, slots, index) && h < |index| && index[h] != -1
    ensures 0 <= index[h] < |slots|
    ensures Agree(base, Freed(slots, index[h]), index[h := -1])
    ensures InFlight(Freed(slots, index[h]), index[h := -1]) == InFlight(slots, index) - {h}
  {
    var slots', index' := Freed(slots, index[h]), index[h := -1];
    forall s' | 0 <= s' < |slots'| && slots'[s'].active
      ensures s' in index'
    {
      var h' :| 0 <= h' < |index| && index[h'] == s';
      assert index'[h'] == s';
    }
  }

  /** As many probes are in flight as slots are active. */
  lemma {:induction false} InFlightSize(base: U32, slots: seq<ProbeInfo>, index: seq<int>)
    requires Agree(base, slots, index)
    ensures |InFlight(slots, index)| == CountActive(slots)
    decreases CountActive(slots)
  {
    CountBounds(slots);
    if CountActive(slots) == 0 {
      assert InFlight(slots, index) == map[];
    } else {
      var s :| 0 <= s < |slots| && slots[s].active;
      var h :| 0 <= h < |index| && index[h] == s;
      CountUpdate(slots, s, slots[s].(active := false));
      Closed(base, slots, index, h);
      InFlightSize(base, Freed(slots, s), index[h := -1]);
      assert h in InFlight(slots, index);
      Shrinks(InFlight(slots, index), {h});
    }
  }

  /** The table, the index and the probe counter stand for the probes in flight of the abstract scanner. */
  ghost predicate Linked(base: U32, lim: Limits, slots: seq<ProbeInfo>, index: seq<int>, active: nat,
                         inflight: map<nat, int>) {
    && |slots| == lim.cap && |index| == lim.total
    && Agree(base, slots, index)
    && active == CountActive(slots)
    && inflight == InFlight(slots, index)
  }

  /** While fewer probes are in flight than the limit, some slot is free; a host has an entry exactly when it is in
      flight. */
  lemma LinkedFacts(base: U32, lim: Limits, slots: seq<ProbeInfo>, index: seq<int>, active: nat, m: map<nat, int>)
    requires Linked(base, lim, slots, index, active, m)
    ensures active == |m| <= lim.cap
    ensures active < lim.cap <==> exists s :: 0 <= s < |slots| && !slots[s].active
    ensures forall h: nat :: h < lim.total ==> (index[h] >= 0 <==> h in m)
  {
    InFlightSize(base, slots, index);
    CountBounds(slots);
  }

  lemma LinkedLaunch(base: U32, lim: Limits, slots: seq<ProbeInfo>, index: seq<int>, active: nat,
                     m: map<nat, int>, h: nat, s: nat, p: ProbeInfo)
    requires Linked(base, lim, slots, index, active, m)
    requires h < lim.total && h !in m
    requires s < |slots| && !slots[s].active && p.active && p.destIp == base + h
    ensures Linked(base, lim, slots[s := p], index[h := s], active + 1, m[h := Nanos(p.sendTime)])
  {
    assert index[h] == -1;
    Opened(base, slots, index, s, h, p);
    CountUpdate(slots, s, p);
  }

  /** Closing the slot of a host in flight. */
  lemma LinkedClose(base: U32, lim: Limits, slots: seq<ProbeInfo>, index: seq<int>, active: nat,
                    m: map<nat, int>, h: nat)
    requires Linked(base, lim, slots, index, active, m) && h in m
    ensures h < |index| && 0 <= index[h] < |slots| && slots[index[h]].active && active > 0
    ensures slots[index[h]].destIp == base + h && m[h] == Nanos(slots[index[h]].sendTime)
    ensures Linked(base, lim, Freed(slots, index[h]), index[h := -1], active - 1, m - {h})
  {
    Closed(base, slots, index, h);
    CountUpdate(slots, index[h], slots[index[h]].(active := false));
  }

  /** The slot of an active probe belongs to a host in flight. */
  lemma LinkedOwner(base: U32, lim: Limits, slots: seq<ProbeInfo>, index: seq<int>, active: nat,
                    m: map<nat, int>, s: nat) returns (h: nat)
    requires Linked(base, lim, slots, index, active, m) && s < |slots| && slots[s].active
    ensures h in m && h < |index| && index[h] == s && slots[s].destIp == base + h
  {
    h :| 0 <= h < |index| && index[h] == s;
    assert h in InFlight(slots, index);
  }
}
