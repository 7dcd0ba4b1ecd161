/** What a stream of received datagrams means: which hosts it shows to be up, and how each datagram is counted. */
module Replies {
  import opened Words
  import opened Wrappers
  import opened Clock
  import opened Icmp
  import opened Ipv4
  import opened ScanModel

  /** A received datagram with the receive time and time-to-live taken from its ancillary data. */
  datatype Datagram = Datagram(source: U32, bytes: seq<Byte>, receivedAt: Time, ttl: int)

  /** A reported host; `rtt` is in nanoseconds. */
  datatype PingHostResult = PingHostResult(ip: U32, rtt: nat, ttl: int)

  /** What a datagram turns out to be: too short for the payload, not an echo reply, an echo reply that adds no host,
      or the first from a host. */
  datatype Verdict = TooShort | NoReply | NoNewHost | Fresh(target: U32, host: nat)

  datatype Targets = Targets(base: U32, total: nat)

  ghost predicate IsEchoReply(d: Datagram) {
    |d.bytes| >= MIN_REPLY && d.bytes[0] == ICMP_ECHOREPLY
  }

  /** Long enough for an ICMP header, too short for the payload. */
  ghost predicate IsShort(d: Datagram) {
    HEADER_SIZE <= |d.bytes| < MIN_REPLY
  }

  /** The host a datagram shows to be up: an echo reply that comes from the target it names, inside the range. */
  ghost function Claim(ts: Targets, d: Datagram): Option<nat> {
    if IsEchoReply(d) && d.source == ReplyTarget(d.bytes) && ts.base <= d.source < ts.base + ts.total
    then Some(d.source - ts.base) else None
  }

  function RoundTrip(d: Datagram): nat
    requires |d.bytes| >= MIN_REPLY
  {
    var diff := (d.receivedAt.sec - ReplySec(d.bytes)) * NANOSECONDS_PER_SECOND
                + (d.receivedAt.nsec - ReplyNsec(d.bytes));
    if diff < 0 then 0 else diff
  }

  function Report(d: Datagram): PingHostResult
    requires |d.bytes| >= MIN_REPLY
  {
    PingHostResult(d.source, RoundTrip(d), d.ttl)
  }

  // ----- The found list -----

  /** The claimed hosts, each at its first claim. */
  ghost function FoundIn(ts: Targets, stream: seq<Datagram>): seq<nat> {
    if stream == [] then [] else
      var before, claim := FoundIn(ts, stream[..|stream| - 1]), Claim(ts, stream[|stream| - 1]);
      if claim.Some? && claim.value !in before then before + [claim.value] else before
  }

  /** The report for each found host, from the datagram that first claimed it. */
  ghost function ResultsIn(ts: Targets, stream: seq<Datagram>): seq<PingHostResult> {
    if stream == [] then [] else
      var init, d := stream[..|stream| - 1], stream[|stream| - 1];
      var claim := Claim(ts, d);
      ResultsIn(ts, init)
      + if claim.Some? && claim.value !in FoundIn(ts, init) then [Report(d)] else []
  }

  /** `i` is the first datagram of the stream that claims host `h`. */
  ghost predicate FirstClaim(ts: Targets, stream: seq<Datagram>, i: nat, h: nat) {
    && i < |stream| && Claim(ts, stream[i]) == Some(h)
    && forall j :: 0 <= j < i ==> Claim(ts, stream[j]) != Some(h)
  }

  /** Position `k` of the list is the host first claimed at `firsts[k]`, and is reported from that datagram. */
  ghost predicate Explains(ts: Targets, stream: seq<Datagram>, firsts: seq<nat>,
                           found: seq<nat>, results: seq<PingHostResult>) {
    && |firsts| == |found| == |results|
    && (forall k :: 0 <= k < |found| ==>
         FirstClaim(ts, stream, firsts[k], found[k]) && results[k] == Report(stream[firsts[k]]))
    && (forall k, l :: 0 <= k < l < |firsts| ==> firsts[k] < firsts[l])
  }

  /** The found list is the claimed hosts in the order of their first claims, whatever else is in the stream, and each
      is reported from its first claim. */
  lemma {:induction false} FoundInOrder(ts: Targets, stream: seq<Datagram>) returns (firsts: seq<nat>)
    ensures Explains(ts, stream, firsts, FoundIn(ts, stream), ResultsIn(ts, stream))
  {
    if stream == [] {
      firsts := [];
    } else {
      var last := |stream| - 1;
      var init := stream[..last];
      firsts := FoundInOrder(ts, init);
      StillExplains(ts, stream, firsts, FoundIn(ts, init), ResultsIn(ts, init));
      var claim := Claim(ts, stream[last]);
      if claim.Some? && claim.value !in FoundIn(ts, init) {
        ClaimsAreFound(ts, init);
        assert forall j :: 0 <= j < last ==> stream[j] == init[j];
        assert FirstClaim(ts, stream, last, claim.value);
        firsts := firsts + [last];
      }
    }
  }

  lemma StillExplains(ts: Targets, stream: seq<Datagram>, firsts: seq<nat>,
                      found: seq<nat>, results: seq<PingHostResult>)
    requires stream != [] && Explains(ts, stream[..|stream| - 1], firsts, found, results)
    ensures Explains(ts, stream, firsts, found, results)
  {
    var init := stream[..|stream| - 1];
    forall k | 0 <= k < |found|
      ensures FirstClaim(ts, stream, firsts[k], found[k]) && results[k] == Report(stream[firsts[k]])
    {
      assert FirstClaim(ts, init, firsts[k], found[k]);
      assert forall j :: 0 <= j <= firsts[k] ==> stream[j] == init[j];
    }
  }

  /** Every claimed host is in the list, and no host twice. */
  lemma {:induction false} ClaimsAreFound(ts: Targets, stream: seq<Datagram>)
    ensures forall i, h :: 0 <= i < |stream| && Claim(ts, stream[i]) == Some(h) ==> h in FoundIn(ts, stream)
    ensures Distinct(FoundIn(ts, stream))
  {
    if stream != [] {
      ClaimsAreFound(ts, stream[..|stream| - 1]);
    }
  }

  /** A host is in the list exactly when the stream has a datagram of at least 32 bytes, of type 0 (echo reply), that
      comes from the host's address and names that address, low byte first, at offset 8. */
  lemma FoundExactly(ts: Targets, stream: seq<Datagram>, h: nat)
    requires h < ts.total
    ensures h in FoundIn(ts, stream) <==>
            exists i :: 0 <= i < |stream| && stream[i].source == ts.base + h
                        && |stream[i].bytes| >= 32 && stream[i].bytes[0] == 0
                        && stream[i].bytes[8] + 0x100 * (stream[i].bytes[9] as int)
                           + 0x1_0000 * (stream[i].bytes[10] as int) + 0x100_0000 * (stream[i].bytes[11] as int)
                           == ts.base + h
  {
    if h in FoundIn(ts, stream) {
      var firsts := FoundInOrder(ts, stream);
      var k :| 0 <= k < |FoundIn(ts, stream)| && FoundIn(ts, stream)[k] == h;
      assert FirstClaim(ts, stream, firsts[k], h);
      TargetBytes(stream[firsts[k]].bytes);
    }
    if i :| 0 <= i < |stream| && stream[i].source == ts.base + h
            && |stream[i].bytes| >= 32 && stream[i].bytes[0] == 0
            && stream[i].bytes[8] + 0x100 * (stream[i].bytes[9] as int)
               + 0x1_0000 * (stream[i].bytes[10] as int) + 0x100_0000 * (stream[i].bytes[11] as int) == ts.base + h {
      TargetBytes(stream[i].bytes);
      assert Claim(ts, stream[i]) == Some(h);
      ClaimsAreFound(ts, stream);
    }
  }

  lemma TargetBytes(bs: seq<Byte>)
    requires |bs| >= MIN_REPLY
    ensures ReplyTarget(bs)
            == bs[8] + 0x100 * (bs[9] as int) + 0x1_0000 * (bs[10] as int) + 0x100_0000 * (bs[11] as int)
  {
    var b := bs[8..12];
    assert b[1..][1..] == b[2..] && b[2..][1..] == b[3..] && b[3..][1..] == [];
    assert FromLittleEndian(b[3..]) == b[3];
    assert FromLittleEndian(b[2..]) == b[2] + 256 * (b[3] as int);
    assert FromLittleEndian(b[1..]) == b[1] + 256 * FromLittleEndian(b[2..]);
    assert FromLittleEndian(b) == b[0] + 256 * FromLittleEndian(b[1..]);
  }

  /** The reported addresses are those of the found hosts, in the same order, all inside the range. */
  lemma {:induction false} ResultsName(ts: Targets, stream: seq<Datagram>)
    ensures |ResultsIn(ts, stream)| == |FoundIn(ts, stream)|
    ensures forall k :: 0 <= k < |FoundIn(ts, stream)| ==>
              FoundIn(ts, stream)[k] < ts.total && ResultsIn(ts, stream)[k].ip == ts.base + FoundIn(ts, stream)[k]
  {
    if stream != [] {
      ResultsName(ts, stream[..|stream| - 1]);
    }
  }

  // ----- Accounting -----

  ghost function CountEchoes(stream: seq<Datagram>): nat {
    if stream == [] then 0 else
      CountEchoes(stream[..|stream| - 1]) + if IsEchoReply(stream[|stream| - 1]) then 1 else 0
  }

  ghost function CountShort(stream: seq<Datagram>): nat {
    if stream == [] then 0 else
      CountShort(stream[..|stream| - 1]) + if IsShort(stream[|stream| - 1]) then 1 else 0
  }

  /** Datagrams that are too short, or echo replies that add no host. */
  ghost function CountUnmatched(ts: Targets, stream: seq<Datagram>): nat {
    if stream == [] then 0 else
      var init, d := stream[..|stream| - 1], stream[|stream| - 1];
      CountUnmatched(ts, init)
      + if IsShort(d) || (IsEchoReply(d) && (Claim(ts, d).None? || Claim(ts, d).value in FoundIn(ts, init)))
        then 1 else 0
  }

  /** The datagrams of type 0 with at least 32 bytes, and those with 8 to 31 bytes, are counted. */
  lemma CountsExact(stream: seq<Datagram>)
    ensures CountEchoes(stream) == |set i: nat | i < |stream| && |stream[i].bytes| >= 32 && stream[i].bytes[0] == 0|
    ensures CountShort(stream) == |set i: nat | i < |stream| && 8 <= |stream[i].bytes| < 32|
  {
    EchoesExact(stream);
    ShortExact(stream);
    assert (set i: nat | i < |stream| && |stream[i].bytes| >= 32 && stream[i].bytes[0] == 0)
           == set i: nat | i < |stream| && IsEchoReply(stream[i]);
    assert (set i: nat | i < |stream| && 8 <= |stream[i].bytes| < 32)
           == set i: nat | i < |stream| && IsShort(stream[i]);
  }

  lemma {:induction false} EchoesExact(stream: seq<Datagram>)
    ensures CountEchoes(stream) == |set i: nat | i < |stream| && IsEchoReply(stream[i])|
  {
    if stream != [] {
      var n: nat := |stream| - 1;
      var init := stream[..n];
      EchoesExact(init);
      var before := set i: nat | i < n && IsEchoReply(init[i]);
      assert (set i: nat | i < |stream| && IsEchoReply(stream[i]))
             == before + if IsEchoReply(stream[n]) then {n} else {};
    }
  }

  lemma {:induction false} ShortExact(stream: seq<Datagram>)
    ensures CountShort(stream) == |set i: nat | i < |stream| && IsShort(stream[i])|
  {
    if stream != [] {
      var n: nat := |stream| - 1;
      var init := stream[..n];
      ShortExact(init);
      var before := set i: nat | i < n && IsShort(init[i]);
      assert (set i: nat | i < |stream| && IsShort(stream[i])) == before + if IsShort(stream[n]) then {n} else {};
    }
  }

  /** Every echo reply and every short packet is a found host or is counted as unmatched, never both. */
  lemma {:induction false} ReplyAccounting(ts: Targets, stream: seq<Datagram>)
    ensures CountEchoes(stream) + CountShort(stream) == |FoundIn(ts, stream)| + CountUnmatched(ts, stream)
  {
    if stream != [] {
      ReplyAccounting(ts, stream[..|stream| - 1]);
    }
  }

  /** A reply that echoes a request sent to `target` is that host's claim, and its round-trip time is counted from the
      request's own send time. */
  lemma EchoClaimsTarget(ts: Targets, d: Datagram, id: U16, seqNo: U16, h: nat, sent: Time, padding: nat)
    requires h < ts.total && ts.base + ts.total <= WORD && d.source == ts.base + h
    requires Echoes(d.bytes, Request(id, seqNo, ts.base + h, sent, padding))
    ensures Claim(ts, d) == Some(h)
    ensures Fits64(sent.sec) ==>
      var age := Nanos(d.receivedAt) - Nanos(sent);
      RoundTrip(d) == if age < 0 then 0 else age
  {
    EchoRoundTrip(d.bytes, id, seqNo, ts.base + h, sent, padding);
  }

  // ----- Draining as steps of the scan -----

  /** The steps of the scan that a run of datagrams amounts to. */
  ghost function DrainEvents(ts: Targets, s: State, ds: seq<Datagram>): seq<Event> {
    if ds == [] then [] else
      var before := DrainEvents(ts, s, ds[..|ds| - 1]);
      before + ReplyEvents(ts, ApplyAll(s, before), ds[|ds| - 1])
  }

  ghost function ReplyEvents(ts: Targets, s: State, d: Datagram): seq<Event> {
    var claim := Claim(ts, d);
    if claim.None? || claim.value in s.found then []
    else if claim.value in s.inflight then [Answer(claim.value)]
    else [Stray(claim.value)]
  }

  /** Steps that may close probes but neither move the cursor nor launch, roll back or expire anything. */
  ghost predicate OnlyReplies(evs: seq<Event>) {
    forall e :: e in evs ==> e.Answer? || e.Stray?
  }

  /** `s'` has no probe that `s` has not, and the same cursor. */
  ghost predicate NoNewProbe(s: State, s': State) {
    && s'.cursor == s.cursor && s'.probed == s.probed
    && forall h :: h in s'.inflight ==> h in s.inflight && s'.inflight[h] == s.inflight[h]
  }

  lemma {:induction false} RepliesKeep(s: State, evs: seq<Event>)
    requires OnlyReplies(evs)
    ensures NoNewProbe(s, ApplyAll(s, evs))
    decreases |evs|
  {
    if evs != [] {
      assert evs[0] in evs && NoNewProbe(s, Apply(s, evs[0]));
      assert forall e :: e in evs[1..] ==> e in evs;
      RepliesKeep(Apply(s, evs[0]), evs[1..]);
    }
  }

  lemma {:induction false} RepliesTally(evs: seq<Event>)
    requires OnlyReplies(evs)
    ensures RollbackFree(evs)
    ensures Tally(evs) == Ledger(0, 0, 0, Tally(evs).answers, Tally(evs).strays, 0, 0)
  {
    if evs != [] {
      assert evs[0] in evs;
      assert forall e :: e in evs[1..] ==> e in evs;
      RepliesTally(evs[1..]);
    }
  }

  lemma ReplyLegal(lim: Limits, ts: Targets, s: State, d: Datagram)
    requires ts.total == lim.total
    ensures Legal(lim, s, ReplyEvents(ts, s, d)) && OnlyReplies(ReplyEvents(ts, s, d))
  {
    var claim := Claim(ts, d);
    if claim.Some? && claim.value !in s.found {
      var h := claim.value;
      Single(lim, s, if h in s.inflight then Answer(h) else Stray(h));
    }
  }

  /** Any run of datagrams is a run of legal steps. */
  lemma {:induction false} DrainLegal(lim: Limits, ts: Targets, s: State, ds: seq<Datagram>)
    requires ts.total == lim.total
    ensures Legal(lim, s, DrainEvents(ts, s, ds)) && OnlyReplies(DrainEvents(ts, s, ds))
  {
    if ds != [] {
      var before := DrainEvents(ts, s, ds[..|ds| - 1]);
      var step := ReplyEvents(ts, ApplyAll(s, before), ds[|ds| - 1]);
      DrainLegal(lim, ts, s, ds[..|ds| - 1]);
      ReplyLegal(lim, ts, ApplyAll(s, before), ds[|ds| - 1]);
      assert Legal(lim, s, before + step) by { Concat(lim, s, before, step); }
    }
  }

  /** One datagram extends the found list to that of the longer stream, whatever is in flight: the list depends on
      neither the probe table, timeouts nor send failures. */
  lemma ReplyFound(ts: Targets, s: State, stream: seq<Datagram>, d: Datagram)
    requires s.found == FoundIn(ts, stream)
    ensures ApplyAll(s, ReplyEvents(ts, s, d)).found == FoundIn(ts, stream + [d])
  {
    assert (stream + [d])[..|stream + [d]| - 1] == stream;
    var claim := Claim(ts, d);
    if claim.Some? && claim.value !in s.found {
      var h := claim.value;
      Single(Limits(0, 0), s, if h in s.inflight then Answer(h) else Stray(h));
    }
  }

  /** So draining extends the found list to that of the longer stream. */
  lemma {:induction false} DrainFound(ts: Targets, s: State, stream: seq<Datagram>, ds: seq<Datagram>)
    requires s.found == FoundIn(ts, stream)
    ensures ApplyAll(s, DrainEvents(ts, s, ds)).found == FoundIn(ts, stream + ds)
  {
    if ds == [] {
      assert stream + ds == stream;
    } else {
      var init, d := ds[..|ds| - 1], ds[|ds| - 1];
      var before := DrainEvents(ts, s, init);
      DrainFound(ts, s, stream, init);
      ReplyFound(ts, ApplyAll(s, before), stream + init, d);
      Concat(Limits(0, 0), s, before, ReplyEvents(ts, ApplyAll(s, before), d));
      assert stream + ds == stream + init + [d];
    }
  }

  /** Whether datagram `d`, coming after `stream`, adds a host to the found list. */
  ghost predicate AddsHost(ts: Targets, stream: seq<Datagram>, d: Datagram) {
    Claim(ts, d).Some? && Claim(ts, d).value !in FoundIn(ts, stream)
  }

  /** What one more datagram adds to the lists and counts of a stream. */
  lemma StreamStep(ts: Targets, stream: seq<Datagram>, d: Datagram)
    ensures FoundIn(ts, stream + [d])
            == FoundIn(ts, stream) + if AddsHost(ts, stream, d) then [Claim(ts, d).value] else []
    ensures ResultsIn(ts, stream + [d])
            == ResultsIn(ts, stream) + if AddsHost(ts, stream, d) then [Report(d)] else []
    ensures CountEchoes(stream + [d]) == CountEchoes(stream) + if IsEchoReply(d) then 1 else 0
    ensures CountUnmatched(ts, stream + [d])
            == CountUnmatched(ts, stream) + if IsShort(d) || (IsEchoReply(d) && !AddsHost(ts, stream, d)) then 1 else 0
  {
    assert (stream + [d])[..|stream + [d]| - 1] == stream;
  }

  /** The claim as the scanner works it out, by the target's host index. */
  lemma ClaimByIndex(ts: Targets, d: Datagram)
    requires Scannable(ts.base, ts.total) && IsEchoReply(d) && d.source == ReplyTarget(d.bytes)
    ensures var h := HostIndex(ts.base, ts.total, ReplyTarget(d.bytes));
      && Claim(ts, d) == (if h < 0 then None else Some(h))
      && (h >= 0 ==> h < ts.total && ts.base + h == d.source)
  {
    HostIndexInverts(ts.base, ts.total);
  }

  /** A datagram is a step of the scan exactly when it adds a host. */
  lemma ReplyEventsAre(ts: Targets, s: State, stream: seq<Datagram>, d: Datagram)
    requires s.found == FoundIn(ts, stream)
    ensures !AddsHost(ts, stream, d) ==> ReplyEvents(ts, s, d) == []
    ensures AddsHost(ts, stream, d) ==>
      var h := Claim(ts, d).value;
      ReplyEvents(ts, s, d) == [if h in s.inflight then Answer(h) else Stray(h)]
  {
  }

  /** The tests that the scanner makes on a datagram decide whether it adds a host. */
  lemma AddsHostByTests(ts: Targets, stream: seq<Datagram>, d: Datagram)
    requires Scannable(ts.base, ts.total)
    ensures !IsEchoReply(d) ==> !AddsHost(ts, stream, d)
    ensures IsEchoReply(d) ==>
      var target := ReplyTarget(d.bytes);
      var h := HostIndex(ts.base, ts.total, target);
      && (AddsHost(ts, stream, d) <==> d.source == target && h >= 0 && h !in FoundIn(ts, stream))
      && (d.source == target && h >= 0 ==>
            h < ts.total && Claim(ts, d) == Some(h) && target == ts.base + h && Report(d).ip == target)
  {
    if IsEchoReply(d) && d.source == ReplyTarget(d.bytes) {
      ClaimByIndex(ts, d);
    }
  }
}
