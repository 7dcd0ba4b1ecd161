/** Timing out the probes in flight, and the clock's share of the termination measure. */
module Expiry {
  import opened ScanModel

  function Survivors(m: map<nat, int>, now: int, timeout: int): map<nat, int> {
    map h | h in m && now - m[h] <= timeout :: m[h]
  }

  /** The expiries among hosts `from..total`, by host. */
  function Expiries(m: map<nat, int>, now: int, timeout: int, from: nat, total: nat): seq<Event>
    decreases total - from
  {
    if from >= total then [] else
      (if from in m && now - m[from] > timeout then [Expire(from)] else []) + Expiries(m, now, timeout, from + 1, total)
  }

  /** What is left of `m` when the hosts below `from` have been reaped. */
  ghost function Partly(m: map<nat, int>, now: int, timeout: int, from: nat): map<nat, int> {
    map h | h in m && (h >= from || now - m[h] <= timeout) :: m[h]
  }

  lemma PartlyEnds(m: map<nat, int>, now: int, timeout: int, total: nat)
    requires forall h :: h in m ==> h < total
    ensures Partly(m, now, timeout, 0) == m
    ensures Partly(m, now, timeout, total) == Survivors(m, now, timeout)
  {
  }

  lemma PartlyStep(m: map<nat, int>, now: int, timeout: int, from: nat)
    ensures Partly(m, now, timeout, from + 1) ==
            if from in m && now - m[from] > timeout then Partly(m, now, timeout, from) - {from}
            else Partly(m, now, timeout, from)
  {
  }

  lemma {:induction false} ExpiriesApply(lim: Limits, s: State, m: map<nat, int>, now: int, timeout: int, from: nat)
    requires s.inflight == Partly(m, now, timeout, from)
    ensures var evs := Expiries(m, now, timeout, from, lim.total);
      && Legal(lim, s, evs)
      && ApplyAll(s, evs) == s.(inflight := Partly(m, now, timeout, if from < lim.total then lim.total else from))
    decreases lim.total - from
  {
    if from < lim.total {
      var rest := Expiries(m, now, timeout, from + 1, lim.total);
      PartlyStep(m, now, timeout, from);
      if from in m && now - m[from] > timeout {
        ExpiriesApply(lim, Apply(s, Expire(from)), m, now, timeout, from + 1);
        assert ([Expire(from)] + rest)[1..] == rest;
      } else {
        ExpiriesApply(lim, s, m, now, timeout, from + 1);
        assert [] + rest == rest;
      }
    }
  }

  lemma {:induction false} ExpiriesTally(m: map<nat, int>, now: int, timeout: int, from: nat, total: nat)
    ensures var evs := Expiries(m, now, timeout, from, total);
      RollbackFree(evs) && Tally(evs) == Ledger(0, 0, 0, 0, 0, 0, |evs|)
    decreases total - from
  {
    if from < total {
      var rest := Expiries(m, now, timeout, from + 1, total);
      ExpiriesTally(m, now, timeout, from + 1, total);
      assert ([Expire(from)] + rest)[1..] == rest;
      assert [] + rest == rest;
    }
  }

  lemma {:induction false} NothingToReap(now: int, timeout: int, from: nat, total: nat)
    ensures Expiries(map[], now, timeout, from, total) == []
    decreases total - from
  {
    if from < total {
      NothingToReap(now, timeout, from + 1, total);
    }
  }

  lemma {:induction false} ExpiriesOnly(m: map<nat, int>, now: int, timeout: int, from: nat, total: nat)
    ensures forall e :: e in Expiries(m, now, timeout, from, total) ==>
              e.Expire? && e.host in m && now - m[e.host] > timeout
    decreases total - from
  {
    if from < total {
      ExpiriesOnly(m, now, timeout, from + 1, total);
    }
  }

  /** Reaping leaves exactly the probes whose age is within the timeout, and the expiries count the others. */
  lemma ReapExact(lim: Limits, s: State, now: int, timeout: int)
    requires Inv(lim, s)
    ensures var evs, left := Expiries(s.inflight, now, timeout, 0, lim.total), Survivors(s.inflight, now, timeout);
      && Legal(lim, s, evs)
      && RollbackFree(evs)
      && ApplyAll(s, evs) == s.(inflight := left)
      && Tally(evs) == Ledger(0, 0, 0, 0, 0, 0, |evs|)
      && |evs| + |left| == |s.inflight|
  {
    var m := s.inflight;
    PartlyEnds(m, now, timeout, lim.total);
    ExpiriesApply(lim, s, m, now, timeout, 0);
    ExpiriesTally(m, now, timeout, 0, lim.total);
    Conservation(lim, s, Expiries(m, now, timeout, 0, lim.total));
  }

  lemma {:induction false} ExpiriesAll(m: map<nat, int>, now: int, timeout: int, from: nat, total: nat, h: nat)
    requires h in m && now - m[h] > timeout && from <= h < total
    ensures Expire(h) in Expiries(m, now, timeout, from, total)
    decreases total - from
  {
    if from < h {
      ExpiriesAll(m, now, timeout, from + 1, total, h);
    }
  }

  /** A probe that has exactly reached the timeout is kept; an older one expires. */
  lemma ReapByAge(lim: Limits, s: State, now: int, timeout: int, h: nat)
    requires Inv(lim, s) && h in s.inflight
    ensures var evs := Expiries(s.inflight, now, timeout, 0, lim.total);
      && (Expire(h) in evs <==> now - s.inflight[h] > timeout)
      && (h in ApplyAll(s, evs).inflight <==> now - s.inflight[h] <= timeout)
  {
    ReapExact(lim, s, now, timeout);
    ExpiriesOnly(s.inflight, now, timeout, 0, lim.total);
    if now - s.inflight[h] > timeout {
      ExpiriesAll(s.inflight, now, timeout, 0, lim.total, h);
    }
  }

  /** No probe in flight was over age at the last reaping. */
  ghost predicate Unexpired(m: map<nat, int>, now: int, timeout: int) {
    forall h :: h in m ==> now - m[h] <= timeout
  }

  ghost function Pick(m: map<nat, int>): nat
    requires m != map[]
    ensures Pick(m) in m
  {
    var h :| h in m;
    h
  }

  /** The time some probe in flight has left. */
  ghost function Slack(m: map<nat, int>, now: int, timeout: int): nat
    requires Unexpired(m, now, timeout)
  {
    if m == map[] then 0 else timeout - (now - m[Pick(m)])
  }

  /** If reaping later than the last time closes nothing, the time left has dropped. */
  lemma SlackDrops(m: map<nat, int>, m': map<nat, int>, last: int, now: int, timeout: int)
    requires Unexpired(m, last, timeout) && m != map[] && last < now
    requires m'.Keys <= m.Keys && (forall h :: h in m' ==> m'[h] == m[h]) && Unexpired(m', now, timeout)
    ensures |m'| < |m| || (m' == m && Slack(m', now, timeout) < Slack(m, last, timeout))
  {
    if m'.Keys == m.Keys {
      assert m' == m;
    } else {
      Shrinks(m, m.Keys - m'.Keys);
      assert m - (m.Keys - m'.Keys) == m';
      assert m.Keys - m'.Keys != {};
    }
  }
}
