/** The abstract scanner that both scan loops implement.

    Hosts are indices below `total`.  A cursor walks over them; each host it passes is either skipped or launched;
    a launched host stays in flight until it is answered, refused or expires.  A ping reply may also be recorded for
    a host that is not in flight (a stray: late after a timeout, or unasked for).  When a batch of requests cannot be
    sent, the unsent launches are rolled back and the cursor is moved back by their number.
 */
module ScanModel {

  datatype Reason = LocalAddress | AlreadyFound | StartFailed

  datatype Event =
    | Skip(host: nat, reason: Reason)
    | Launch(host: nat, sentAt: int)
    | Rollback(hosts: set<nat>)
    | Answer(host: nat)
    | Stray(host: nat)
    | Refuse(host: nat)
    | Expire(host: nat)

  /** `inflight` maps a host to its send time in nanoseconds; `probed` holds the hosts launched and not rolled back. */
  datatype State = State(cursor: nat, inflight: map<nat, int>, found: seq<nat>, probed: set<nat>)

  datatype Limits = Limits(total: nat, cap: nat)

  const START := State(0, map[], [], {})

  ghost predicate Enabled(lim: Limits, s: State, e: Event) {
    match e
    case Skip(h, reason) => h == s.cursor < lim.total && (reason == AlreadyFound ==> h in s.found)
    case Launch(h, _) => h == s.cursor < lim.total && h !in s.found && |s.inflight| < lim.cap
    case Rollback(hs) =>
      && hs <= s.inflight.Keys
      && |hs| <= s.cursor
      && forall h :: h in s.probed - hs ==> h < s.cursor - |hs|
    case Answer(h) => h in s.inflight
    case Stray(h) => h < lim.total && h !in s.inflight && h !in s.found
    case Refuse(h) => h in s.inflight
    case Expire(h) => h in s.inflight
  }

  function Apply(s: State, e: Event): State {
    match e
    case Skip(_, _) => s.(cursor := s.cursor + 1)
    case Launch(h, t) => s.(cursor := s.cursor + 1, inflight := s.inflight[h := t], probed := s.probed + {h})
    case Rollback(hs) =>
      s.(cursor := if |hs| <= s.cursor then s.cursor - |hs| else 0, inflight := s.inflight - hs,
         probed := s.probed - hs)
    case Answer(h) => s.(inflight := s.inflight - {h}, found := s.found + [h])
    case Stray(h) => s.(found := s.found + [h])
    case Refuse(h) => s.(inflight := s.inflight - {h})
    case Expire(h) => s.(inflight := s.inflight - {h})
  }

  function ApplyAll(s: State, tr: seq<Event>): State
    decreases |tr|
  {
    if tr == [] then s else ApplyAll(Apply(s, tr[0]), tr[1..])
  }

  ghost predicate Legal(lim: Limits, s: State, tr: seq<Event>)
    decreases |tr|
  {
    tr == [] || (Enabled(lim, s, tr[0]) && Legal(lim, Apply(s, tr[0]), tr[1..]))
  }

  lemma {:induction false} Concat(lim: Limits, s: State, a: seq<Event>, b: seq<Event>)
    ensures ApplyAll(s, a + b) == ApplyAll(ApplyAll(s, a), b)
    ensures Legal(lim, s, a + b) <==> Legal(lim, s, a) && Legal(lim, ApplyAll(s, a), b)
    decreases |a|
  {
    if a == [] {
      assert a + b == b;
    } else {
      assert (a + b)[0] == a[0] && (a + b)[1..] == a[1..] + b;
      Concat(lim, Apply(s, a[0]), a[1..], b);
    }
  }

  lemma Single(lim: Limits, s: State, e: Event)
    ensures ApplyAll(s, [e]) == Apply(s, e)
    ensures Legal(lim, s, [e]) <==> Enabled(lim, s, e)
  {
    assert [e][1..] == [];
  }

  // ----- Safety: what every step keeps -----

  ghost predicate Distinct(xs: seq<nat>) {
    forall i, j :: 0 <= i < j < |xs| ==> xs[i] != xs[j]
  }

  /** Every probed host is behind the cursor. */
  ghost predicate Behind(s: State) {
    forall h :: h in s.probed ==> h < s.cursor
  }

  ghost predicate Inv(lim: Limits, s: State) {
    && s.cursor <= lim.total
    && s.inflight.Keys <= s.probed
    && Behind(s)
    && |s.inflight| <= lim.cap
    && Distinct(s.found)
    && (forall h :: h in s.found ==> h < lim.total && h !in s.inflight)
  }

  lemma StepKeepsInv(lim: Limits, s: State, e: Event)
    requires Inv(lim, s) && Enabled(lim, s, e)
    ensures Inv(lim, Apply(s, e))
  {
    match e
    case Skip(_, _) =>
    case Launch(h, t) => Launched(lim, s, h, t);
    case Rollback(hs) =>
      Removed(lim, s, hs);
      Rewound(lim, s.(inflight := s.inflight - hs), hs);
    case Answer(h) =>
      Removed(lim, s, {h});
      Recorded(lim, s.(inflight := s.inflight - {h}), h);
    case Stray(h) => Recorded(lim, s, h);
    case Refuse(h) => Removed(lim, s, {h});
    case Expire(h) => Removed(lim, s, {h});
  }

  lemma Launched(lim: Limits, s: State, h: nat, t: int)
    requires Inv(lim, s) && Enabled(lim, s, Launch(h, t))
    ensures Inv(lim, Apply(s, Launch(h, t)))
  {
    assert s.inflight[h := t].Keys == s.inflight.Keys + {h};
  }

  lemma Removed(lim: Limits, s: State, gone: set<nat>)
    requires Inv(lim, s) && gone <= s.inflight.Keys
    ensures Inv(lim, s.(inflight := s.inflight - gone))
    ensures forall h :: h in gone ==> h !in s.found
  {
    Shrinks(s.inflight, gone);
  }

  lemma Rewound(lim: Limits, s: State, gone: set<nat>)
    requires Inv(lim, s) && s.inflight.Keys !! gone && |gone| <= s.cursor
    requires forall h :: h in s.probed - gone ==> h < s.cursor - |gone|
    ensures Inv(lim, s.(cursor := s.cursor - |gone|, probed := s.probed - gone))
  {
  }

  lemma Recorded(lim: Limits, s: State, h: nat)
    requires Inv(lim, s) && h < lim.total && h !in s.inflight && h !in s.found
    ensures Inv(lim, s.(found := s.found + [h]))
  {
  }

  lemma Shrinks<V>(m: map<nat, V>, gone: set<nat>)
    requires gone <= m.Keys
    ensures (m - gone).Keys == m.Keys - gone
    ensures |m - gone| == |m| - |gone|
  {
    assert (m - gone).Keys == m.Keys - gone;
    assert |m.Keys| == |m.Keys - gone| + |m.Keys * gone| && m.Keys * gone == gone;
  }

  lemma Extends<V>(m: map<nat, V>, h: nat, v: V)
    requires h !in m
    ensures |m[h := v]| == |m| + 1
  {
    assert m[h := v].Keys == m.Keys + {h};
  }

  lemma {:induction false} RunKeepsInv(lim: Limits, s: State, tr: seq<Event>)
    requires Inv(lim, s) && Legal(lim, s, tr)
    ensures Inv(lim, ApplyAll(s, tr))
    decreases |tr|
  {
    if tr != [] {
      StepKeepsInv(lim, s, tr[0]);
      RunKeepsInv(lim, Apply(s, tr[0]), tr[1..]);
    }
  }

  /** Once found, a host stays in the list at its position and is never launched again. */
  lemma {:induction false} FoundIsFinal(lim: Limits, s: State, tr: seq<Event>)
    requires Legal(lim, s, tr)
    ensures s.found <= ApplyAll(s, tr).found
    ensures forall e :: e in tr && e.Launch? ==> e.host !in s.found
    decreases |tr|
  {
    if tr != [] {
      FoundIsFinal(lim, Apply(s, tr[0]), tr[1..]);
      assert s.found <= Apply(s, tr[0]).found;
      assert tr == [tr[0]] + tr[1..];
    }
  }

  /** A launched host can be launched again only if its launch was rolled back in between: no sent host is probed
      twice. */
  lemma {:induction false} NoSecondLaunch(lim: Limits, s: State, tr: seq<Event>, i: nat, j: nat)
    requires Behind(s) && Legal(lim, s, tr)
    requires i < j < |tr| && tr[i].Launch? && tr[j].Launch? && tr[i].host == tr[j].host
    ensures exists k :: i < k < j && tr[k].Rollback? && tr[i].host in tr[k].hosts
    decreases i
  {
    var s' := Apply(s, tr[0]);
    if i == 0 {
      var k := RolledBackFirst(lim, s', tr[1..], j - 1);
      assert tr[k + 1].Rollback? && tr[i].host in tr[k + 1].hosts;
    } else {
      NoSecondLaunch(lim, s', tr[1..], i - 1, j - 1);
      var k :| i - 1 < k < j - 1 && tr[1..][k].Rollback? && tr[i].host in tr[1..][k].hosts;
      assert tr[k + 1].Rollback?;
    }
  }

  lemma {:induction false} RolledBackFirst(lim: Limits, s: State, tr: seq<Event>, j: nat) returns (k: nat)
    requires Behind(s) && Legal(lim, s, tr)
    requires j < |tr| && tr[j].Launch? && tr[j].host in s.probed
    ensures k < j && tr[k].Rollback? && tr[j].host in tr[k].hosts
    decreases j
  {
    if tr[0].Rollback? && tr[j].host in tr[0].hosts {
      k := 0;
    } else {
      var h := tr[j].host;
      StaysProbed(lim, s, tr[0], h);
      assert j > 0;
      k := RolledBackFirst(lim, Apply(s, tr[0]), tr[1..], j - 1);
      k := k + 1;
    }
  }

  lemma StaysProbed(lim: Limits, s: State, e: Event, h: nat)
    requires Behind(s) && Enabled(lim, s, e) && h in s.probed
    requires e.Rollback? ==> h !in e.hosts
    ensures Behind(Apply(s, e)) && h in Apply(s, e).probed
    ensures e.Launch? ==> e.host != h
  {
  }

  // ----- Conservation -----

  datatype Ledger = Ledger(skips: nat, launches: nat, withdrawn: nat,
                           answers: nat, strays: nat, refusals: nat, expiries: nat)

  function Entry(e: Event): Ledger {
    match e
    case Skip(_, _) => Ledger(1, 0, 0, 0, 0, 0, 0)
    case Launch(_, _) => Ledger(0, 1, 0, 0, 0, 0, 0)
    case Rollback(hs) => Ledger(0, 0, |hs|, 0, 0, 0, 0)
    case Answer(_) => Ledger(0, 0, 0, 1, 0, 0, 0)
    case Stray(_) => Ledger(0, 0, 0, 0, 1, 0, 0)
    case Refuse(_) => Ledger(0, 0, 0, 0, 0, 1, 0)
    case Expire(_) => Ledger(0, 0, 0, 0, 0, 0, 1)
  }

  function Tally(tr: seq<Event>): Ledger {
    if tr == [] then Ledger(0, 0, 0, 0, 0, 0, 0) else Sum(Entry(tr[0]), Tally(tr[1..]))
  }

  function Sum(a: Ledger, b: Ledger): Ledger {
    Ledger(a.skips + b.skips, a.launches + b.launches, a.withdrawn + b.withdrawn, a.answers + b.answers,
           a.strays + b.strays, a.refusals + b.refusals, a.expiries + b.expiries)
  }

  lemma {:induction false} TallyConcat(a: seq<Event>, b: seq<Event>)
    ensures Tally(a + b) == Sum(Tally(a), Tally(b))
  {
    if a == [] {
      assert a + b == b;
    } else {
      assert (a + b)[0] == a[0] && (a + b)[1..] == a[1..] + b;
      TallyConcat(a[1..], b);
    }
  }

  lemma TallySingle(e: Event)
    ensures Tally([e]) == Entry(e)
  {
    assert [e][1..] == [];
  }

  ghost predicate Balanced(s: State, l: Ledger, s': State) {
    && |s.inflight| + l.launches == l.answers + l.refusals + l.expiries + l.withdrawn + |s'.inflight|
    && s.cursor + l.skips + l.launches == s'.cursor + l.withdrawn
    && |s.found| + l.answers + l.strays == |s'.found|
  }

  lemma StepBalances(lim: Limits, s: State, e: Event)
    requires Enabled(lim, s, e) && forall h :: h in s.inflight ==> h < s.cursor
    ensures Balanced(s, Entry(e), Apply(s, e))
  {
    match e
    case Skip(_, _) =>
    case Launch(h, t) => Extends(s.inflight, h, t);
    case Rollback(hs) => Shrinks(s.inflight, hs);
    case Stray(_) =>
    case Answer(_) | Refuse(_) | Expire(_) => CloseBalances(s, e);
  }

  lemma CloseBalances(s: State, e: Event)
    requires (e.Answer? || e.Refuse? || e.Expire?) && e.host in s.inflight
    ensures Balanced(s, Entry(e), Apply(s, e))
  {
    Shrinks(s.inflight, {e.host});
  }

  /** Over any run, rolled back or not: every launch is answered, refused, expired, withdrawn or still in flight; the
      cursor has passed exactly the skipped hosts and the launches kept; the found list is the answers and strays. */
  lemma {:induction false} Conservation(lim: Limits, s: State, tr: seq<Event>)
    requires Inv(lim, s) && Legal(lim, s, tr)
    ensures Balanced(s, Tally(tr), ApplyAll(s, tr))
    decreases |tr|
  {
    if tr != [] {
      StepKeepsInv(lim, s, tr[0]);
      StepBalances(lim, s, tr[0]);
      Conservation(lim, Apply(s, tr[0]), tr[1..]);
    }
  }

  // ----- The life of one host -----

  ghost predicate RollbackFree(tr: seq<Event>) {
    forall e :: e in tr ==> !e.Rollback?
  }

  /** The events about host `h`, in order. */
  function About(tr: seq<Event>, h: nat): seq<Event> {
    if tr == [] then [] else
      (if !tr[0].Rollback? && tr[0].host == h then [tr[0]] else []) + About(tr[1..], h)
  }

  lemma {:induction false} AboutIn(tr: seq<Event>, h: nat)
    ensures forall e :: e in About(tr, h) ==> e in tr
  {
    if tr != [] {
      assert tr == [tr[0]] + tr[1..];
      AboutIn(tr[1..], h);
    }
  }

  predicate Passed(w: seq<Event>, h: nat) {
    || (|w| == 1 && w[0].Skip? && w[0].host == h && w[0].reason != AlreadyFound)
    || (|w| == 2 && w[0].Skip? && w[0].host == h && w[0].reason != AlreadyFound && w[1] == Stray(h))
    || (|w| == 2 && w[0] == Stray(h) && w[1].Skip? && w[1].host == h)
  }

  predicate Flying(w: seq<Event>, h: nat, t: int) {
    w == [Launch(h, t)]
  }

  predicate Settled(w: seq<Event>, h: nat) {
    && |w| >= 2 && w[0].Launch? && w[0].host == h
    && w[1..] in {[Answer(h)], [Refuse(h)], [Refuse(h), Stray(h)], [Expire(h)], [Expire(h), Stray(h)]}
  }

  /** `w` is a possible history of host `h` that leads to state `s`. */
  ghost predicate History(s: State, w: seq<Event>, h: nat) {
    && (h in s.found <==> Answer(h) in w || Stray(h) in w)
    && if h in s.inflight then Flying(w, h, s.inflight[h])
       else if h < s.cursor then Passed(w, h) || Settled(w, h)
       else w == [] || w == [Stray(h)]
  }

  lemma {:induction false} Lives(lim: Limits, s: State, w: seq<Event>, tr: seq<Event>, h: nat)
    requires Inv(lim, s) && Legal(lim, s, tr) && RollbackFree(tr) && History(s, w, h)
    ensures History(ApplyAll(s, tr), w + About(tr, h), h)
    decreases |tr|
  {
    if tr == [] {
      assert w + [] == w;
    } else if tr[0].host == h {
      StepKeepsInv(lim, s, tr[0]);
      LifeStep(lim, s, w, tr[0]);
      assert w + [tr[0]] + About(tr[1..], h) == w + About(tr, h);
      Lives(lim, Apply(s, tr[0]), w + [tr[0]], tr[1..], h);
    } else {
      StepKeepsInv(lim, s, tr[0]);
      OtherLife(lim, s, w, tr[0], h);
      assert About(tr, h) == About(tr[1..], h);
      Lives(lim, Apply(s, tr[0]), w, tr[1..], h);
    }
  }

  lemma OtherLife(lim: Limits, s: State, w: seq<Event>, e: Event, h: nat)
    requires Enabled(lim, s, e) && !e.Rollback? && e.host != h && History(s, w, h)
    ensures History(Apply(s, e), w, h)
  {
    if e.Skip? || e.Launch? {
      assert h < s.cursor + 1 ==> h < s.cursor;
    }
  }

  lemma LifeStep(lim: Limits, s: State, w: seq<Event>, e: Event)
    requires Inv(lim, s) && Enabled(lim, s, e) && !e.Rollback? && History(s, w, e.host)
    ensures History(Apply(s, e), w + [e], e.host)
  {
    var h, w' := e.host, w + [e];
    assert w'[|w|] == e && forall x :: x in w' <==> x in w || x == e;
    match e
    case Skip(_, _) =>
      assert w == [] || w == [Stray(h)];
    case Launch(_, t) =>
      assert w == [];
      assert w' == [Launch(h, t)];
    case Stray(_) =>
      assert forall i :: 0 <= i < |w| ==> w[i] != Answer(h) && w[i] != Stray(h);
      if h < s.cursor && Settled(w, h) {
        assert w[1] == w[1..][0] && w[|w| - 1] == w[1..][|w| - 2];
        assert w'[1..] == [w[1], e];
      }
    case Answer(_) | Refuse(_) | Expire(_) =>
      assert w == [Launch(h, s.inflight[h])];
      assert w'[1..] == [e];
  }

  // ----- Local addresses -----

  /** The hosts skipped as local addresses, in order. */
  function SkippedLocally(tr: seq<Event>): seq<nat> {
    if tr == [] then [] else
      (if tr[0].Skip? && tr[0].reason == LocalAddress then [tr[0].host] else []) + SkippedLocally(tr[1..])
  }

  lemma {:induction false} SkippedConcat(a: seq<Event>, b: seq<Event>)
    ensures SkippedLocally(a + b) == SkippedLocally(a) + SkippedLocally(b)
  {
    if a == [] {
      assert a + b == b;
    } else {
      assert (a + b)[0] == a[0] && (a + b)[1..] == a[1..] + b;
      SkippedConcat(a[1..], b);
    }
  }

  /** Without rollback no host is skipped twice. */
  lemma {:induction false} SkippedOnce(lim: Limits, s: State, tr: seq<Event>)
    requires Legal(lim, s, tr) && RollbackFree(tr)
    ensures Distinct(SkippedLocally(tr))
    ensures forall h :: h in SkippedLocally(tr) ==> s.cursor <= h < lim.total && Skip(h, LocalAddress) in tr
    decreases |tr|
  {
    if tr != [] {
      assert tr == [tr[0]] + tr[1..];
      SkippedOnce(lim, Apply(s, tr[0]), tr[1..]);
    }
  }

  lemma {:induction false} DistinctSize(xs: seq<nat>, all: set<nat>)
    requires Distinct(xs) && forall x :: x in xs ==> x in all
    ensures |xs| <= |all|
  {
    if xs != [] {
      var x := xs[0];
      assert forall y :: y in xs[1..] ==> y in xs && y != x;
      DistinctSize(xs[1..], all - {x});
    }
  }

  // ----- The end of a run -----

  predicate Finished(lim: Limits, s: State) {
    s.cursor == lim.total && s.inflight == map[]
  }

  /** When a run without rollback is over, every host has exactly one of the listed histories: it was skipped once and
      never launched, or launched once and then closed exactly once; and it was found exactly when a reply is in it. */
  lemma EveryHostSettles(lim: Limits, tr: seq<Event>, h: nat)
    requires Legal(lim, START, tr) && RollbackFree(tr) && Finished(lim, ApplyAll(START, tr)) && h < lim.total
    ensures var w := About(tr, h);
      && (Passed(w, h) || Settled(w, h))
      && (h in ApplyAll(START, tr).found <==> Answer(h) in w || Stray(h) in w)
  {
    Lives(lim, START, [], tr, h);
    assert [] + About(tr, h) == About(tr, h);
  }
}
