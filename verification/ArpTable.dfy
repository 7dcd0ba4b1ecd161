/** Reading the kernel's neighbour table: the walk over the received bytes as it is built, updating the list of entries
    in place and closing the socket from several places. */
module ArpTables {
  import opened Words
  import opened Icmp
  import opened Netlink

  /** One return of the receive call: interrupted, failed, cut off by the kernel, or a datagram.  `printed` says whether
      the warning about a cut-off datagram could be written. */
  datatype Receive = Interrupted | Broken | Truncated(printed: bool) | Got(bytes: seq<Byte>)

  /** The entries of a run of receive calls; once the script is used up, the call fails. */
  function ReceiveAll(names: Names, receives: seq<Receive>): seq<ArpEntry>
    requires WellPadded(receives)
  {
    if receives == [] then [] else
      match receives[0]
      case Interrupted => ReceiveAll(names, receives[1..])
      case Broken | Truncated(_) => []
      case Got(bytes) =>
        WalkMessages(names, bytes) + if Stops(bytes) then [] else ReceiveAll(names, receives[1..])
  }

  predicate WellPadded(receives: seq<Receive>) {
    forall r :: r in receives ==> (r.Got? ==> PaddedMessages(r.bytes))
  }

  function Flatten(datagrams: seq<seq<Message>>): seq<Message> {
    if datagrams == [] then [] else datagrams[0] + Flatten(datagrams[1..])
  }

  /** The calls deliver these datagrams, perhaps interrupted in between. */
  predicate Deliver(receives: seq<Receive>, datagrams: seq<seq<Message>>) {
    if receives == [] then datagrams == []
    else if receives[0].Interrupted? then Deliver(receives[1..], datagrams)
    else
      && datagrams != [] && ValidMessages(datagrams[0]) && receives[0] == Got(Encode(datagrams[0]))
      && Deliver(receives[1..], datagrams[1..])
  }

  /** However the messages are spread over datagrams, the entries are those that the whole stream means. */
  lemma {:induction false} StreamDecodes(names: Names, receives: seq<Receive>, datagrams: seq<seq<Message>>)
    requires Deliver(receives, datagrams)
    ensures WellPadded(receives)
    ensures ReceiveAll(names, receives) == Meaning(names, Flatten(datagrams))
  {
    if receives != [] {
      var rest := if receives[0].Interrupted? then datagrams else datagrams[1..];
      StreamDecodes(names, receives[1..], rest);
      assert receives == [receives[0]] + receives[1..];
      if receives[0].Got? {
        MessagesDecode(names, datagrams[0]);
        MeaningConcat(names, datagrams[0], Flatten(rest));
      }
    }
  }

  /** A call that fails, or returns a datagram that was cut off, ends the list with what came before it. */
  lemma StreamCutOff(names: Names, before: seq<Receive>, after: seq<Receive>, datagrams: seq<seq<Message>>)
    requires Deliver(before, datagrams) && WellPadded(after)
    requires after != [] && (after[0].Broken? || after[0].Truncated?)
    ensures WellPadded(before + after)
    ensures ReceiveAll(names, before + after) == Meaning(names, Flatten(datagrams))
  {
    StreamDecodes(names, before, datagrams);
    CutOff(names, before, after);
  }

  lemma {:induction false} CutOff(names: Names, before: seq<Receive>, after: seq<Receive>)
    requires WellPadded(before) && WellPadded(after) && after != [] && (after[0].Broken? || after[0].Truncated?)
    ensures WellPadded(before + after) && ReceiveAll(names, before + after) == ReceiveAll(names, before)
  {
    if before == [] {
      assert before + after == after;
    } else {
      assert before == [before[0]] + before[1..] && before + after == [before[0]] + (before[1..] + after);
      CutOff(names, before[1..], after);
    }
  }

  // ----- The walks, one turn at a time -----

  /** With `f` gathered so far, walking the rest `b` comes to `all`. */
  ghost predicate Gathering(b: seq<Byte>, f: Found, all: Found) {
    PaddedAttributes(b) && WalkAttributes(b, f) == all
  }

  lemma AttributeTurn(b: seq<Byte>, f: Found, all: Found)
    requires Gathering(b, f, all)
    ensures AttributeOk(b) ==>
      && Align(U16At(b, 0)) <= |b| && (U16At(b, 2) == NDA_DST ==> ATTRIBUTE + 4 <= |b|)
      && if Short(U16At(b, 2), U16At(b, 0) - ATTRIBUTE) then f == all
         else Gathering(b[Align(U16At(b, 0))..], Absorb(U16At(b, 2), b[ATTRIBUTE..], f), all)
    ensures !AttributeOk(b) ==> f == all
  {
  }

  /** With `entries` listed so far, walking the rest `b` comes to `all`, and `stops` says whether it ends the list. */
  ghost predicate Listing(names: Names, b: seq<Byte>, entries: seq<ArpEntry>, all: seq<ArpEntry>, stops: bool) {
    PaddedMessages(b) && Stops(b) == stops && entries + WalkMessages(names, b) == all
  }

  lemma MessageTurn(names: Names, b: seq<Byte>, entries: seq<ArpEntry>, all: seq<ArpEntry>, stops: bool)
    requires Listing(names, b, entries, all, stops)
    ensures !MessageOk(b) ==> entries == all && !stops
    ensures MessageOk(b) && IsFinal(b) ==> entries == all && stops
    ensures MessageOk(b) && !IsFinal(b) ==>
      && (IsNeighbour(b) ==> NeighbourOk(b)) && Align(U32At(b, 0)) <= |b|
      && Listing(names, b[Align(U32At(b, 0))..], entries + EntryAt(names, b), all, stops)
  {
    if !MessageOk(b) || IsFinal(b) {
      assert entries + [] == entries;
    } else {
      var rest := WalkMessages(names, b[Align(U32At(b, 0))..]);
      assert entries + (EntryAt(names, b) + rest) == entries + EntryAt(names, b) + rest;
    }
  }

  /** With `entries` listed so far, the calls to come lead to `all`. */
  ghost predicate Receiving(names: Names, receives: seq<Receive>, entries: seq<ArpEntry>, all: seq<ArpEntry>) {
    WellPadded(receives) && entries + ReceiveAll(names, receives) == all
  }

  lemma ReceiveTurn(names: Names, receives: seq<Receive>, entries: seq<ArpEntry>, all: seq<ArpEntry>)
    requires Receiving(names, receives, entries, all) && receives != []
    ensures match receives[0]
      case Interrupted => Receiving(names, receives[1..], entries, all)
      case Broken | Truncated(_) => entries == all
      case Got(bytes) =>
        && PaddedMessages(bytes)
        && if Stops(bytes) then entries + WalkMessages(names, bytes) == all
           else Receiving(names, receives[1..], entries + WalkMessages(names, bytes), all)
  {
    assert receives[0] in receives && forall r :: r in receives[1..] ==> r in receives;
    match receives[0] {
      case Interrupted =>
      case Broken | Truncated(_) => assert entries + [] == entries;
      case Got(bytes) =>
        var walked := WalkMessages(names, bytes);
        if Stops(bytes) {
          assert walked + [] == walked;
        } else {
          var more := ReceiveAll(names, receives[1..]);
          assert entries + (walked + more) == entries + walked + more;
        }
    }
  }

  lemma Rest(buf: seq<Byte>, at: nat, rem: nat, n: nat)
    requires at + rem <= |buf| && n <= rem
    ensures buf[at..at + rem][n..] == buf[at + n..at + n + (rem - n)]
  {
  }

  /** The fields of an attribute, in terms of the buffer. */
  lemma AttributeAt(buf: seq<Byte>, at: nat, rem: nat)
    requires at + rem <= |buf| && rem >= ATTRIBUTE
    ensures var b := buf[at..at + rem];
      && U16At(b, 0) == U16At(buf, at) && U16At(b, 2) == U16At(buf, at + 2)
      && (rem >= ATTRIBUTE + 4 ==>
            NetworkOrder(b[ATTRIBUTE..]) == NetworkOrder(buf[at + ATTRIBUTE..at + ATTRIBUTE + 4]))
      && (rem >= ATTRIBUTE + MAC_BYTES ==>
            b[ATTRIBUTE..][..MAC_BYTES] == buf[at + ATTRIBUTE..at + ATTRIBUTE + MAC_BYTES])
  {
  }

  class ArpReader {
    const names: Names
    var entries: seq<ArpEntry>

    /** How often the socket has been closed. */
    var closes: nat

    constructor (names: Names)
      ensures this.names == names && entries == [] && closes == 0
    {
      this.names := names;
      entries, closes := [], 0;
    }

    /** Walks the attributes in `buf[at0..at0 + len0]`. */
    method ParseNetlinkAttributes(buf: seq<Byte>, at0: nat, len0: nat, ip0: U32, mac0: string)
      returns (ip: U32, mac: string)
      requires at0 + len0 <= |buf| && PaddedAttributes(buf[at0..at0 + len0])
      ensures Found(ip, mac) == WalkAttributes(buf[at0..at0 + len0], Found(ip0, mac0))
    {
      var at: nat, rem: nat := at0, len0;
      ip, mac := ip0, mac0;
      ghost var b := buf[at0..at0 + len0];
      ghost var all := WalkAttributes(b, Found(ip, mac));
      while rem >= ATTRIBUTE && ATTRIBUTE <= U16At(buf, at) <= rem
        invariant at + rem <= |buf| && b == buf[at..at + rem]
        invariant Gathering(b, Found(ip, mac), all)
        decreases rem
      {
        var len, kind := U16At(buf, at), U16At(buf, at + 2);
        AttributeAt(buf, at, rem);
        AttributeTurn(b, Found(ip, mac), all);
        if kind == NDA_DST {
          ip := NetworkOrder(buf[at + ATTRIBUTE..at + ATTRIBUTE + 4]);
        } else if kind == NDA_LLADDR {
          if len - ATTRIBUTE < MAC_BYTES {
            return;
          }
          var text := MacText(buf[at + ATTRIBUTE..at + ATTRIBUTE + MAC_BYTES]);
          if |text| >= MAC_TEXT {
            return;
          }
          mac := text;
        }
        Rest(buf, at, rem, Align(len));
        at, rem, b := at + Align(len), rem - Align(len), b[Align(len)..];
      }
      if rem >= ATTRIBUTE {
        AttributeAt(buf, at, rem);
      }
      AttributeTurn(b, Found(ip, mac), all);
    }

    /** Takes in the message at `buf[at..at + rem]`: keeps its entry, or closes the socket and ends the list. */
    method ParseNetlinkMessage(buf: seq<Byte>, at: nat, rem: nat, printed: bool) returns (more: bool)
      requires at + rem <= |buf| && MessageOk(buf[at..at + rem]) && PaddedMessages(buf[at..at + rem])
      modifies `entries, `closes
      ensures more <==> !IsFinal(buf[at..at + rem])
      ensures closes == old(closes) + if more then 0 else 1
      ensures entries == old(entries) + if more then EntryAt(names, buf[at..at + rem]) else []
    {
      ghost var b := buf[at..at + rem];
      assert U16At(b, 4) == U16At(buf, at + 4) && U32At(b, 0) == U32At(buf, at);
      var kind := U16At(buf, at + 4);
      if kind == NLMSG_DONE {
        closes := closes + 1;
        return false;
      }
      if kind == NLMSG_ERROR {
        if U32At(buf, at + HEADER) != 0 && !printed {
          closes := closes + 1;
          return false;
        }
        closes := closes + 1;
        return false;
      }
      if kind != RTM_NEWNEIGH {
        return true;
      }
      NeighbourAt(buf, at, rem);
      if buf[at + HEADER] != AF_INET {
        return true;
      }
      var ip, mac := ParseNetlinkAttributes(buf, at + HEADER + NDMSG, U32At(buf, at) - (HEADER + NDMSG), 0, ZERO_MAC);
      KeepNeighbour(ip, mac, U16At(buf, at + HEADER + 8), Signed32(U32At(buf, at + HEADER + 4)));
      return true;
    }

    /** Adds an entry unless it has no address, is unresolved or is for a group address. */
    method KeepNeighbour(ip: U32, mac: string, state: U16, interfaceIndex: int)
      modifies `entries
      ensures entries == old(entries) + Kept(names, Found(ip, mac), state % 2 == 1, interfaceIndex)
    {
      if ip != 0 {
        if state % 2 != 0 || mac == ZERO_MAC {
          return;
        }
        var firstByte := ip / 0x100_0000;
        if (firstByte >= 224 && firstByte <= 239) || ip == 0xFFFF_FFFF {
          return;
        }
        var name := names(interfaceIndex);
        entries := entries + [ArpEntry(ip, mac, interfaceIndex, if name.Some? then name.value else "unknown")];
      }
    }

    /** The fields of a neighbour message, in terms of the buffer. */
    lemma NeighbourAt(buf: seq<Byte>, at: nat, rem: nat)
      requires at + rem <= |buf| && MessageOk(buf[at..at + rem]) && IsNeighbour(buf[at..at + rem])
      requires NeighbourOk(buf[at..at + rem])
      ensures var b, len := buf[at..at + rem], U32At(buf, at);
        && U32At(b, 0) == len && HEADER + NDMSG <= len <= rem
        && b[HEADER] == buf[at + HEADER] && U16At(b, HEADER + 8) == U16At(buf, at + HEADER + 8)
        && U32At(b, HEADER + 4) == U32At(buf, at + HEADER + 4)
        && b[HEADER + NDMSG..len] == buf[at + (HEADER + NDMSG)..at + (HEADER + NDMSG) + (len - (HEADER + NDMSG))]
    {
      var b, len := buf[at..at + rem], U32At(buf, at);
      assert U32At(b, 0) == len;
      assert b[HEADER + NDMSG..len] == buf[at + (HEADER + NDMSG)..at + len];
    }

    /** Walks the messages of one datagram; stops early when one ends the list. */
    method ParseDatagram(buf: seq<Byte>, printed: bool) returns (continueLoop: bool)
      requires PaddedMessages(buf)
      modifies `entries, `closes
      ensures continueLoop <==> !Stops(buf)
      ensures entries == old(entries) + WalkMessages(names, buf)
      ensures closes == old(closes) + if continueLoop then 0 else 1
    {
      var at: nat, rem: nat := 0, |buf|;
      ghost var b, all, stops := buf, entries + WalkMessages(names, buf), Stops(buf);
      while rem >= HEADER && HEADER <= U32At(buf, at) <= rem
        invariant at + rem <= |buf| && b == buf[at..at + rem] && closes == old(closes)
        invariant Listing(names, b, entries, all, stops)
        decreases rem
      {
        LengthAt(buf, at, rem);
        MessageTurn(names, b, entries, all, stops);
        var more := ParseNetlinkMessage(buf, at, rem, printed);
        if !more {
          return false;
        }
        var size := Align(U32At(buf, at));
        Rest(buf, at, rem, size);
        at, rem, b := at + size, rem - size, b[size..];
      }
      if rem >= HEADER {
        LengthAt(buf, at, rem);
      }
      MessageTurn(names, b, entries, all, stops);
      return true;
    }

    lemma LengthAt(buf: seq<Byte>, at: nat, rem: nat)
      requires at + rem <= |buf| && rem >= HEADER
      ensures U32At(buf[at..at + rem], 0) == U32At(buf, at)
    {
    }

    /** Fetches the whole table.  Whatever fails on the way, a socket that was opened is closed exactly once.
        `printed` says whether the text of an error message could be written. */
    method GetArpTable(socketOk: bool, sendOk: bool, receives: seq<Receive>, printed: bool)
      requires WellPadded(receives)
      modifies this
      ensures entries == if socketOk && sendOk then ReceiveAll(names, receives) else []
      ensures closes == if socketOk then 1 else 0
    {
      entries, closes := [], 0;
      if !socketOk {
        return;
      }
      if !sendOk {
        closes := closes + 1;
        return;
      }
      var k: nat := 0;
      ghost var rest, all := receives, ReceiveAll(names, receives);
      while k < |receives|
        invariant k <= |receives| && rest == receives[k..] && closes == 0
        invariant Receiving(names, rest, entries, all)
      {
        ReceiveTurn(names, rest, entries, all);
        var r := receives[k];
        k, rest := k + 1, rest[1..];
        match r {
          case Interrupted =>
            continue;
          case Broken =>
            break;
          case Truncated(warned) =>
            if !warned {
              closes := closes + 1;
              return;
            }
            break;
          case Got(bytes) =>
            var continueLoop := ParseDatagram(bytes, printed);
            if !continueLoop {
              return;
            }
        }
      }
      closes := closes + 1;
    }
  }
}
