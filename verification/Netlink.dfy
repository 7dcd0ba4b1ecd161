/** The kernel's neighbour table as netlink messages: what a stream of messages means, and the walk over its bytes.
    Integers are in little-endian host order, addresses in network order.  The messages are those of the neighbour
    service, section 3.1.2 of RFC 3549. */
module Netlink {
  import opened Words
  import opened Wrappers
  import opened Icmp

  const HEADER := 16
  const NDMSG := 12
  const ATTRIBUTE := 4

  const NLMSG_ERROR: U16 := 2
  const NLMSG_DONE: U16 := 3
  const RTM_NEWNEIGH: U16 := 28
  const AF_INET: Byte := 2
  const NDA_DST: U16 := 1
  const NDA_LLADDR: U16 := 2

  const MAC_BYTES := 6

  /** The size of the text buffer, with its terminating zero. */
  const MAC_TEXT := 18
  const ZERO_MAC := "00:00:00:00:00:00"

  datatype ArpEntry = ArpEntry(ip: U32, mac: string, interfaceIndex: int, interfaceName: string)

  /** The names of the interfaces, by index. */
  type Names = int -> Option<string>

  // ----- Hardware addresses as text -----

  function Zeros(n: nat): (b: seq<Byte>)
    ensures |b| == n
  {
    seq(n, i => 0)
  }

  function HexDigit(d: nat): char
    requires d < 16
  {
    "0123456789abcdef"[d]
  }

  function MacText(m: seq<Byte>): (s: string)
    requires m != []
    ensures |s| == 3 * |m| - 1
  {
    var byte := [HexDigit(m[0] / 16), HexDigit(m[0] % 16)];
    if |m| == 1 then byte else byte + [':'] + MacText(m[1..])
  }

  lemma HexByte(a: Byte, b: Byte)
    requires HexDigit(a / 16) == HexDigit(b / 16) && HexDigit(a % 16) == HexDigit(b % 16)
    ensures a == b
  {
    HexDigitInverts(a / 16, b / 16);
    HexDigitInverts(a % 16, b % 16);
  }

  lemma HexDigitInverts(d: nat, e: nat)
    requires d < 16 && e < 16 && HexDigit(d) == HexDigit(e)
    ensures d == e
  {
    assert forall i, j :: 0 <= i < j < 16 ==> "0123456789abcdef"[i] != "0123456789abcdef"[j];
  }

  /** The text determines the address. */
  lemma {:induction false} MacTextInverts(a: seq<Byte>, b: seq<Byte>)
    requires |a| == |b| > 0 && MacText(a) == MacText(b)
    ensures a == b
  {
    var s, t := MacText(a), MacText(b);
    assert s[0] == t[0] && s[1] == t[1];
    HexByte(a[0], b[0]);
    if |a| > 1 {
      assert s[3..] == MacText(a[1..]) && t[3..] == MacText(b[1..]);
      MacTextInverts(a[1..], b[1..]);
      assert a == [a[0]] + a[1..] && b == [b[0]] + b[1..];
    } else {
      assert a == [a[0]] && b == [b[0]];
    }
  }

  /** The text character by character: two digits for each byte, the high one first, with colons between them. */
  lemma {:induction false} MacTextAt(m: seq<Byte>, k: nat)
    requires k < |m|
    ensures MacText(m)[3 * k] == "0123456789abcdef"[m[k] / 16]
    ensures MacText(m)[3 * k + 1] == "0123456789abcdef"[m[k] % 16]
    ensures k < |m| - 1 ==> MacText(m)[3 * k + 2] == ':'
  {
    if k > 0 {
      MacTextAt(m[1..], k - 1);
    }
  }

  function ZeroText(n: nat): string
    requires n > 0
  {
    if n == 1 then "00" else "00:" + ZeroText(n - 1)
  }

  lemma {:induction false} ZeroBytes(n: nat)
    requires n > 0
    ensures MacText(Zeros(n)) == ZeroText(n)
  {
    if n > 1 {
      ZeroBytes(n - 1);
      assert Zeros(n)[1..] == Zeros(n - 1);
    }
  }

  /** So comparing it with the zero text tells whether the address is zero. */
  lemma ZeroMac(m: seq<Byte>)
    requires |m| == MAC_BYTES
    ensures MacText(m) == ZERO_MAC <==> forall i :: 0 <= i < MAC_BYTES ==> m[i] == 0
  {
    ZeroBytes(MAC_BYTES);
    assert ZeroText(3) == "00:00:00";
    assert ZeroText(6) == "00:00:00:" + ZeroText(3) == ZERO_MAC;
    if MacText(m) == ZERO_MAC {
      MacTextInverts(m, Zeros(MAC_BYTES));
    }
    if forall i :: 0 <= i < MAC_BYTES ==> m[i] == 0 {
      assert m == Zeros(MAC_BYTES);
    }
  }

  // ----- What messages mean -----

  datatype Attribute = Attribute(kind: U16, payload: seq<Byte>)

  datatype Message =
    | Neighbour(family: Byte, interfaceIndex: U32, state: U16, flags: Byte, kind: Byte, attributes: seq<Attribute>)
    | Other(messageKind: U16, payload: seq<Byte>)

  /** The address and the hardware address gathered so far. */
  datatype Found = Found(ip: U32, mac: string)

  const NOTHING := Found(0, ZERO_MAC)

  function NetworkOrder(b: seq<Byte>): U32
    requires |b| >= 4
  {
    0x100_0000 * (b[0] as int) + 0x1_0000 * (b[1] as int) + 0x100 * (b[2] as int) + b[3]
  }

  /** A link-layer attribute of `n` bytes that is too short for a hardware address. */
  predicate Short(kind: U16, n: nat) {
    kind == NDA_LLADDR && n < MAC_BYTES
  }

  /** What an attribute adds. */
  function Absorb(kind: U16, payload: seq<Byte>, f: Found): Found
    requires !Short(kind, |payload|)
  {
    if kind == NDA_DST && |payload| >= 4 then f.(ip := NetworkOrder(payload))
    else if kind == NDA_LLADDR then f.(mac := MacText(payload[..MAC_BYTES]))
    else f
  }

  /** The last address and the last hardware address win; a short hardware address ends the list. */
  function Gather(attributes: seq<Attribute>, f: Found): Found {
    if attributes == [] || Short(attributes[0].kind, |attributes[0].payload|) then f else
      Gather(attributes[1..], Absorb(attributes[0].kind, attributes[0].payload, f))
  }

  /** The attributes before the first short hardware address. */
  function UpToShort(attributes: seq<Attribute>): seq<Attribute> {
    if attributes == [] || Short(attributes[0].kind, |attributes[0].payload|) then [] else
      [attributes[0]] + UpToShort(attributes[1..])
  }

  predicate IsLast(attributes: seq<Attribute>, kind: U16, i: nat) {
    && i < |attributes| && attributes[i].kind == kind
    && forall j :: i < j < |attributes| ==> attributes[j].kind != kind
  }

  predicate Absent(attributes: seq<Attribute>, kind: U16) {
    forall i :: 0 <= i < |attributes| ==> attributes[i].kind != kind
  }

  /** `ip` is the address in the last address attribute, if any. */
  ghost predicate LastAddress(kept: seq<Attribute>, before: U32, ip: U32) {
    && (Absent(kept, NDA_DST) ==> ip == before)
    && (forall i: nat :: IsLast(kept, NDA_DST, i) ==> |kept[i].payload| >= 4 && ip == NetworkOrder(kept[i].payload))
  }

  ghost predicate LastMac(kept: seq<Attribute>, before: string, mac: string) {
    && (Absent(kept, NDA_LLADDR) ==> mac == before)
    && (forall i: nat :: IsLast(kept, NDA_LLADDR, i) ==>
          |kept[i].payload| >= MAC_BYTES && mac == MacText(kept[i].payload[..MAC_BYTES]))
  }

  lemma {:induction false} GatherKept(attributes: seq<Attribute>, f: Found)
    requires forall a :: a in attributes && a.kind == NDA_DST ==> |a.payload| >= 4
    ensures LastAddress(UpToShort(attributes), f.ip, Gather(attributes, f).ip)
    ensures LastMac(UpToShort(attributes), f.mac, Gather(attributes, f).mac)
  {
    if !(attributes == [] || Short(attributes[0].kind, |attributes[0].payload|)) {
      var a := attributes[0];
      var rest, f' := UpToShort(attributes[1..]), Absorb(a.kind, a.payload, f);
      assert forall x :: x in attributes[1..] ==> x in attributes;
      GatherKept(attributes[1..], f');
      var g := Gather(attributes[1..], f');
      AddressCons(a, rest, f.ip, f'.ip, g.ip);
      MacCons(a, rest, f.mac, f'.mac, g.mac);
    }
  }

  lemma {:induction false} KeptPrefix(attributes: seq<Attribute>) returns (c: nat)
    ensures c <= |attributes| && UpToShort(attributes) == attributes[..c]
    ensures c < |attributes| ==> attributes[c].kind == 2 && |attributes[c].payload| < 6
    ensures forall i :: 0 <= i < c && attributes[i].kind == 2 ==> |attributes[i].payload| >= 6
  {
    if attributes == [] || Short(attributes[0].kind, |attributes[0].payload|) {
      c := 0;
    } else {
      var rest := attributes[1..];
      c := KeptPrefix(rest);
      assert attributes == [attributes[0]] + rest;
      assert attributes[..c + 1] == [attributes[0]] + rest[..c];
      c := c + 1;
    }
  }

  /** Of the `c` attributes before the first hardware address of fewer than six bytes, the last address attribute (kind
      1) gives the address, its first byte the highest; and the last hardware address (kind 2) gives the text, two
      digits for each of six bytes.  Where there is none, what was there before stays. */
  lemma GatherIsLast(attributes: seq<Attribute>, f: Found) returns (c: nat)
    requires forall a :: a in attributes && a.kind == 1 ==> |a.payload| >= 4
    ensures c <= |attributes|
    ensures c < |attributes| ==> attributes[c].kind == 2 && |attributes[c].payload| < 6
    ensures forall i :: 0 <= i < c && attributes[i].kind == 2 ==> |attributes[i].payload| >= 6
    ensures (forall i :: 0 <= i < c ==> attributes[i].kind != 1) ==> Gather(attributes, f).ip == f.ip
    ensures forall i :: 0 <= i < c && attributes[i].kind == 1 && (forall j :: i < j < c ==> attributes[j].kind != 1) ==>
              var ip, b := Gather(attributes, f).ip, attributes[i].payload;
              && ip / 0x100_0000 == b[0] && ip / 0x1_0000 % 0x100 == b[1]
              && ip / 0x100 % 0x100 == b[2] && ip % 0x100 == b[3]
    ensures (forall i :: 0 <= i < c ==> attributes[i].kind != 2) ==> Gather(attributes, f).mac == f.mac
    ensures forall i :: 0 <= i < c && attributes[i].kind == 2 && (forall j :: i < j < c ==> attributes[j].kind != 2) ==>
              var mac, b := Gather(attributes, f).mac, attributes[i].payload;
              && |mac| == 17
              && (forall k :: 0 <= k < 6 ==>
                   mac[3 * k] == "0123456789abcdef"[b[k] / 16] && mac[3 * k + 1] == "0123456789abcdef"[b[k] % 16])
              && mac[2] == mac[5] == mac[8] == mac[11] == mac[14] == ':'
  {
    GatherKept(attributes, f);
    c := KeptPrefix(attributes);
    var kept, g := attributes[..c], Gather(attributes, f);
    assert forall i :: 0 <= i < c ==> kept[i] == attributes[i];
    forall i | 0 <= i < c && attributes[i].kind == 1 && (forall j :: i < j < c ==> attributes[j].kind != 1)
      ensures var b := attributes[i].payload;
        && g.ip / 0x100_0000 == b[0] && g.ip / 0x1_0000 % 0x100 == b[1]
        && g.ip / 0x100 % 0x100 == b[2] && g.ip % 0x100 == b[3]
    {
      assert IsLast(kept, NDA_DST, i);
      OrderBytes(kept[i].payload);
    }
    forall i | 0 <= i < c && attributes[i].kind == 2 && (forall j :: i < j < c ==> attributes[j].kind != 2)
      ensures TextOf(g.mac, attributes[i].payload)
    {
      assert IsLast(kept, NDA_LLADDR, i);
      TextOfMac(kept[i].payload);
    }
  }

  lemma OrderBytes(b: seq<Byte>)
    requires |b| >= 4
    ensures var ip := NetworkOrder(b);
      && ip / 0x100_0000 == b[0] && ip / 0x1_0000 % 0x100 == b[1]
      && ip / 0x100 % 0x100 == b[2] && ip % 0x100 == b[3]
  {
    var two: nat := 0x100 * (b[0] as int) + b[1];
    var three: nat := 0x100 * two + b[2];
    LastByte(three, b[3]);
    LastByte(two, b[2]);
    LastByte(b[0], b[1]);
  }

  lemma LastByte(high: nat, low: Byte)
    ensures (0x100 * high + low) / 0x100 == high && (0x100 * high + low) % 0x100 == low
    ensures (0x100 * high + low) / 0x1_0000 == high / 0x100
    ensures (0x100 * high + low) / 0x100_0000 == high / 0x1_0000
  {
  }

  ghost predicate TextOf(mac: string, b: seq<Byte>) {
    && |mac| == 17 && |b| >= 6
    && (forall k :: 0 <= k < 6 ==>
         mac[3 * k] == "0123456789abcdef"[b[k] / 16] && mac[3 * k + 1] == "0123456789abcdef"[b[k] % 16])
    && mac[2] == mac[5] == mac[8] == mac[11] == mac[14] == ':'
  }

  lemma TextOfMac(b: seq<Byte>)
    requires |b| >= MAC_BYTES
    ensures TextOf(MacText(b[..MAC_BYTES]), b)
  {
    forall k | 0 <= k < 6
      ensures MacText(b[..6])[3 * k] == "0123456789abcdef"[b[k] / 16]
      ensures MacText(b[..6])[3 * k + 1] == "0123456789abcdef"[b[k] % 16]
    {
      MacTextAt(b[..6], k);
    }
    MacTextAt(b[..6], 0);
    MacTextAt(b[..6], 1);
    MacTextAt(b[..6], 2);
    MacTextAt(b[..6], 3);
    MacTextAt(b[..6], 4);
  }

  lemma AddressCons(a: Attribute, rest: seq<Attribute>, before: U32, next: U32, ip: U32)
    requires LastAddress(rest, next, ip) && (a.kind == NDA_DST ==> |a.payload| >= 4)
    requires next == if a.kind == NDA_DST then NetworkOrder(a.payload) else before
    ensures LastAddress([a] + rest, before, ip)
  {
    LastInRest(a, rest, NDA_DST);
  }

  lemma MacCons(a: Attribute, rest: seq<Attribute>, before: string, next: string, mac: string)
    requires LastMac(rest, next, mac) && !Short(a.kind, |a.payload|)
    requires next == if a.kind == NDA_LLADDR then MacText(a.payload[..MAC_BYTES]) else before
    ensures LastMac([a] + rest, before, mac)
  {
    LastInRest(a, rest, NDA_LLADDR);
  }

  lemma LastInRest(a: Attribute, rest: seq<Attribute>, kind: U16)
    ensures forall i: nat :: IsLast([a] + rest, kind, i) ==>
              if i == 0 then a.kind == kind && Absent(rest, kind) else IsLast(rest, kind, i - 1)
    ensures Absent([a] + rest, kind) ==> a.kind != kind && Absent(rest, kind)
  {
    var all := [a] + rest;
    assert all[0] == a && forall j :: 0 <= j < |rest| ==> rest[j] == all[j + 1];
  }

  predicate Multicast(ip: U32) {
    224 <= ip / 0x100_0000 <= 239
  }

  /** A 32-bit word read as a signed integer. */
  function Signed32(x: U32): int {
    if x < 0x8000_0000 then x else x - WORD
  }

  /** What is kept of a neighbour: nothing without an address, while unresolved, or for group addresses. */
  function Kept(names: Names, f: Found, incomplete: bool, interfaceIndex: int): seq<ArpEntry> {
    if f.ip == 0 || incomplete || f.mac == ZERO_MAC || Multicast(f.ip) || f.ip == WORD - 1 then [] else
      var name := names(interfaceIndex);
      [ArpEntry(f.ip, f.mac, interfaceIndex, if name.Some? then name.value else "unknown")]
  }

  predicate Final(m: Message) {
    m.Other? && (m.messageKind == NLMSG_DONE || m.messageKind == NLMSG_ERROR)
  }

  function EntryOf(names: Names, m: Message): seq<ArpEntry> {
    if m.Neighbour? && m.family == AF_INET
    then Kept(names, Gather(m.attributes, NOTHING), m.state % 2 == 1, Signed32(m.interfaceIndex)) else []
  }

  /** The entries of the messages before the first that ends the list. */
  function Meaning(names: Names, ms: seq<Message>): seq<ArpEntry> {
    if ms == [] || Final(ms[0]) then [] else EntryOf(names, ms[0]) + Meaning(names, ms[1..])
  }

  predicate Ends(ms: seq<Message>) {
    exists i :: 0 <= i < |ms| && Final(ms[i])
  }

  lemma {:induction false} MeaningConcat(names: Names, a: seq<Message>, b: seq<Message>)
    ensures Meaning(names, a + b) == Meaning(names, a) + if Ends(a) then [] else Meaning(names, b)
    ensures Ends(a + b) <==> Ends(a) || Ends(b)
  {
    if a == [] {
      assert a + b == b;
    } else {
      assert (a + b)[0] == a[0] && (a + b)[1..] == a[1..] + b;
      EndsCons(a);
      EndsCons(a + b);
      if !Final(a[0]) {
        MeaningConcat(names, a[1..], b);
        var rest := if Ends(a[1..]) then [] else Meaning(names, b);
        Joined(EntryOf(names, a[0]), Meaning(names, a[1..]), rest);
      }
    }
  }

  lemma Joined(a: seq<ArpEntry>, b: seq<ArpEntry>, c: seq<ArpEntry>)
    ensures a + (b + c) == a + b + c
  {
  }

  lemma EndsCons(ms: seq<Message>)
    requires ms != []
    ensures Ends(ms) <==> Final(ms[0]) || Ends(ms[1..])
  {
    if Ends(ms) && !Final(ms[0]) {
      var i :| 0 <= i < |ms| && Final(ms[i]);
      assert ms[1..][i - 1] == ms[i];
    }
    if Ends(ms[1..]) {
      var i :| 0 <= i < |ms[1..]| && Final(ms[1..][i]);
      assert ms[i + 1] == ms[1..][i];
    }
  }

  /** An entry for this message: it is an IPv4 neighbour (family 2), resolved (bit 0 of the state is clear), with a
      hardware address, and an address that is neither 0 nor in 224.0.0.0 to 239.255.255.255 nor 255.255.255.255; the
      entry has the addresses gathered from the message, its interface index as a signed number and that interface's
      name. */
  ghost predicate Lists(names: Names, m: Message, e: ArpEntry) {
    && m.Neighbour? && m.family == 2 && m.state % 2 == 0
    && Gather(m.attributes, Found(0, "00:00:00:00:00:00")) == Found(e.ip, e.mac)
    && e.mac != "00:00:00:00:00:00"
    && e.ip != 0 && !(224 <= e.ip / 0x100_0000 <= 239) && e.ip != 0xFFFF_FFFF
    && e.interfaceIndex
       == (if m.interfaceIndex < 0x8000_0000 then m.interfaceIndex else m.interfaceIndex - 0x1_0000_0000)
    && e.interfaceName == (if names(e.interfaceIndex).Some? then names(e.interfaceIndex).value else "unknown")
  }

  /** Message `i` is there, and neither it nor any before it is DONE (3) or ERROR (2). */
  ghost predicate Reaches(ms: seq<Message>, i: nat) {
    i < |ms| && forall j :: 0 <= j <= i ==> !(ms[j].Other? && (ms[j].messageKind == 2 || ms[j].messageKind == 3))
  }

  /** The list holds exactly the entries for the messages before the first DONE or ERROR. */
  lemma {:induction false} ListedExactly(names: Names, ms: seq<Message>, e: ArpEntry)
    ensures e in Meaning(names, ms) <==> exists i: nat :: Reaches(ms, i) && Lists(names, ms[i], e)
  {
    MeaningAt(names, ms, e);
    if i: nat :| Reaches(ms, i) && e in EntryOf(names, ms[i]) {
      EntryIs(names, ms[i], e);
    }
    if i: nat :| Reaches(ms, i) && Lists(names, ms[i], e) {
      EntryIs(names, ms[i], e);
    }
  }

  lemma EntryIs(names: Names, m: Message, e: ArpEntry)
    ensures e in EntryOf(names, m) <==> Lists(names, m, e)
  {
  }

  lemma ReachesRest(ms: seq<Message>, i: nat)
    requires ms != [] && !Final(ms[0])
    ensures Reaches(ms[1..], i) <==> Reaches(ms, i + 1)
  {
    if Reaches(ms[1..], i) {
      assert forall j :: 0 < j <= i + 1 ==> ms[j] == ms[1..][j - 1];
    }
    if Reaches(ms, i + 1) {
      assert forall j :: 0 <= j <= i ==> ms[1..][j] == ms[j + 1];
    }
  }

  lemma {:induction false} MeaningAt(names: Names, ms: seq<Message>, e: ArpEntry)
    ensures e in Meaning(names, ms) <==> exists i: nat :: Reaches(ms, i) && e in EntryOf(names, ms[i])
  {
    if ms != [] && !Final(ms[0]) {
      var rest := ms[1..];
      MeaningAt(names, rest, e);
      assert Reaches(ms, 0);
      if e in Meaning(names, rest) {
        var i: nat :| Reaches(rest, i) && e in EntryOf(names, rest[i]);
        ReachesRest(ms, i);
      }
      if i: nat :| i > 0 && Reaches(ms, i) && e in EntryOf(names, ms[i]) {
        ReachesRest(ms, i - 1);
      }
    }
  }

  // ----- Messages as bytes -----

  function Align(n: nat): (r: nat)
    ensures n <= r < n + 4
  {
    (n + 3) / 4 * 4
  }

  lemma AlignIs(n: nat)
    ensures Align(n) % 4 == 0
  {
  }

  function U16At(b: seq<Byte>, i: nat): U16
    requires i + 2 <= |b|
  {
    b[i] + 0x100 * (b[i + 1] as int)
  }

  function U32At(b: seq<Byte>, i: nat): U32
    requires i + 4 <= |b|
  {
    b[i] + 0x100 * (b[i + 1] as int) + 0x1_0000 * (b[i + 2] as int) + 0x100_0000 * (b[i + 3] as int)
  }

  // The walk over the attributes of a message: `b` is what is left of them.

  predicate AttributeOk(b: seq<Byte>) {
    |b| >= ATTRIBUTE && ATTRIBUTE <= U16At(b, 0) <= |b|
  }

  /** Every attribute is padded, and an address has its bytes: without this the walk would leave the message. */
  predicate PaddedAttributes(b: seq<Byte>) {
    AttributeOk(b) ==>
      var size := Align(U16At(b, 0));
      size <= |b| && (U16At(b, 2) == NDA_DST ==> |b| >= ATTRIBUTE + 4) && PaddedAttributes(b[size..])
  }

  function WalkAttributes(b: seq<Byte>, f: Found): Found
    requires PaddedAttributes(b)
  {
    if !AttributeOk(b) || Short(U16At(b, 2), U16At(b, 0) - ATTRIBUTE) then f else
      WalkAttributes(b[Align(U16At(b, 0))..], Absorb(U16At(b, 2), b[ATTRIBUTE..], f))
  }

  // The walk over the messages of a datagram: `b` is what is left of it.

  predicate MessageOk(b: seq<Byte>) {
    |b| >= HEADER && HEADER <= U32At(b, 0) <= |b|
  }

  predicate IsNeighbour(b: seq<Byte>)
    requires MessageOk(b)
  {
    U16At(b, 4) == RTM_NEWNEIGH
  }

  predicate IsFinal(b: seq<Byte>)
    requires MessageOk(b)
  {
    U16At(b, 4) == NLMSG_DONE || U16At(b, 4) == NLMSG_ERROR
  }

  /** A neighbour message holds its fixed part, and its attributes are padded. */
  predicate NeighbourOk(b: seq<Byte>)
    requires MessageOk(b)
  {
    U32At(b, 0) >= HEADER + NDMSG && PaddedAttributes(b[HEADER + NDMSG..U32At(b, 0)])
  }

  predicate ErrorOk(b: seq<Byte>)
    requires MessageOk(b)
  {
    U16At(b, 4) == NLMSG_ERROR ==> |b| >= HEADER + 4
  }

  predicate PaddedMessages(b: seq<Byte>) {
    MessageOk(b) ==>
      && (IsNeighbour(b) ==> NeighbourOk(b)) && ErrorOk(b)
      && (!IsFinal(b) ==> Align(U32At(b, 0)) <= |b| && PaddedMessages(b[Align(U32At(b, 0))..]))
  }

  function EntryAt(names: Names, b: seq<Byte>): seq<ArpEntry>
    requires MessageOk(b) && (IsNeighbour(b) ==> NeighbourOk(b))
  {
    if !IsNeighbour(b) || b[HEADER] != AF_INET then [] else
      Kept(names, WalkAttributes(b[HEADER + NDMSG..U32At(b, 0)], NOTHING), U16At(b, HEADER + 8) % 2 == 1,
           Signed32(U32At(b, HEADER + 4)))
  }

  function WalkMessages(names: Names, b: seq<Byte>): seq<ArpEntry>
    requires PaddedMessages(b)
  {
    if !MessageOk(b) || IsFinal(b) then [] else
      EntryAt(names, b) + WalkMessages(names, b[Align(U32At(b, 0))..])
  }

  /** Whether the walk comes to a message that ends the list. */
  predicate Stops(b: seq<Byte>)
    requires PaddedMessages(b)
  {
    MessageOk(b) && (IsFinal(b) || Stops(b[Align(U32At(b, 0))..]))
  }

  // ----- Encoding -----

  function Bytes16(x: U16): (b: seq<Byte>)
    ensures |b| == 2 && U16At(b, 0) == x
  {
    [x % 0x100, x / 0x100]
  }

  function Bytes32(x: U32): (b: seq<Byte>)
    ensures |b| == 4 && U32At(b, 0) == x
  {
    var high := x / 0x100;
    var higher := high / 0x100;
    [x % 0x100, high % 0x100, higher % 0x100, higher / 0x100]
  }

  function Padded(b: seq<Byte>): (r: seq<Byte>)
    ensures |r| == Align(|b|) && r[..|b|] == b
  {
    b + Zeros(Align(|b|) - |b|)
  }

  predicate ValidAttribute(a: Attribute) {
    ATTRIBUTE + |a.payload| < 0x1_0000 && (a.kind == NDA_DST ==> |a.payload| >= 4)
  }

  function EncodeAttribute(a: Attribute): (b: seq<Byte>)
    requires ValidAttribute(a)
    ensures |b| == Align(ATTRIBUTE + |a.payload|)
  {
    Padded(Bytes16(ATTRIBUTE + |a.payload|) + Bytes16(a.kind) + a.payload)
  }

  predicate ValidAttributes(attributes: seq<Attribute>) {
    forall a :: a in attributes ==> ValidAttribute(a)
  }

  function EncodeAttributes(attributes: seq<Attribute>): seq<Byte>
    requires ValidAttributes(attributes)
  {
    if attributes == [] then [] else EncodeAttribute(attributes[0]) + EncodeAttributes(attributes[1..])
  }

  function Body(m: Message): seq<Byte>
    requires m.Neighbour? ==> ValidAttributes(m.attributes)
  {
    match m
    case Neighbour(family, interfaceIndex, state, flags, kind, attributes) =>
      [family, 0, 0, 0] + Bytes32(interfaceIndex) + Bytes16(state) + [flags, kind] + EncodeAttributes(attributes)
    case Other(_, payload) => payload
  }

  function KindOf(m: Message): U16 {
    match m
    case Neighbour(_, _, _, _, _, _) => RTM_NEWNEIGH
    case Other(kind, _) => kind
  }

  predicate ValidMessage(m: Message) {
    && (m.Neighbour? ==> ValidAttributes(m.attributes))
    && (m.Other? ==> m.messageKind != RTM_NEWNEIGH && (m.messageKind == NLMSG_ERROR ==> |m.payload| >= 4))
    && HEADER + |Body(m)| < WORD
  }

  /** The header, whose flags, sequence number and port are not looked at, and the body. */
  function EncodeMessage(m: Message): (b: seq<Byte>)
    requires ValidMessage(m)
    ensures |b| == Align(HEADER + |Body(m)|)
  {
    Padded(Bytes32(HEADER + |Body(m)|) + Bytes16(KindOf(m)) + Zeros(10) + Body(m))
  }

  predicate ValidMessages(ms: seq<Message>) {
    forall m :: m in ms ==> ValidMessage(m)
  }

  function Encode(ms: seq<Message>): seq<Byte>
    requires ValidMessages(ms)
  {
    if ms == [] then [] else EncodeMessage(ms[0]) + Encode(ms[1..])
  }

  /** The bytes of an attribute: length and kind, low byte first, then the payload, padded to a multiple of four. */
  lemma AttributeLayout(a: Attribute)
    requires ValidAttribute(a)
    ensures var b := EncodeAttribute(a);
      && 4 + |a.payload| <= |b| < 8 + |a.payload| && |b| % 4 == 0
      && b[0] + 0x100 * (b[1] as int) == 4 + |a.payload|
      && b[2] + 0x100 * (b[3] as int) == a.kind
      && b[4..4 + |a.payload|] == a.payload
  {
    AttributeHead(a, []);
    AlignIs(ATTRIBUTE + |a.payload|);
    var b := EncodeAttribute(a);
    var head := Bytes16(ATTRIBUTE + |a.payload|) + Bytes16(a.kind) + a.payload;
    assert b + [] == b && b[..|head|] == head && head[4..] == a.payload;
    assert b[..|head|][4..] == b[4..4 + |a.payload|];
  }

  /** The bytes of a message: its length and its type (28 for a neighbour), low byte first; and in a neighbour message
      the family at 16, the interface index at 20, the state at 24 and the attributes from 28 on. */
  lemma MessageLayout(m: Message)
    requires ValidMessage(m)
    ensures var b, len := EncodeMessage(m), 16 + |Body(m)|;
      && len <= |b| < len + 4 && |b| % 4 == 0
      && b[0] + 0x100 * (b[1] as int) + 0x1_0000 * (b[2] as int) + 0x100_0000 * (b[3] as int) == len
      && b[4] + 0x100 * (b[5] as int) == (if m.Neighbour? then 28 else m.messageKind)
      && (m.Other? ==> b[16..len] == m.payload)
      && (m.Neighbour? ==>
            && len >= 28 && b[16] == m.family && b[24] + 0x100 * (b[25] as int) == m.state
            && b[20] + 0x100 * (b[21] as int) + 0x1_0000 * (b[22] as int) + 0x100_0000 * (b[23] as int)
               == m.interfaceIndex
            && b[28..len] == EncodeAttributes(m.attributes))
  {
    var b := EncodeMessage(m);
    MessageHead(m, []);
    AlignIs(HEADER + |Body(m)|);
    assert b + [] == b;
    if m.Neighbour? {
      NeighbourFields(m, b);
    }
  }

  // ----- The walk reads what was encoded -----

  lemma AttributeHead(a: Attribute, rest: seq<Byte>)
    requires ValidAttribute(a)
    ensures var b, len := EncodeAttribute(a) + rest, ATTRIBUTE + |a.payload|;
      && AttributeOk(b) && U16At(b, 0) == len && U16At(b, 2) == a.kind
      && a.payload <= b[ATTRIBUTE..] && b[Align(len)..] == rest && Align(len) <= |b|
  {
    var head := Bytes16(ATTRIBUTE + |a.payload|) + Bytes16(a.kind) + a.payload;
    var e := EncodeAttribute(a);
    assert e[..|head|] == head;
    assert forall i :: 0 <= i < |head| ==> (e + rest)[i] == e[..|head|][i] == head[i];
    assert head[..2] == Bytes16(ATTRIBUTE + |a.payload|) && head[2..4] == Bytes16(a.kind) && head[4..] == a.payload;
  }

  lemma {:induction false} AttributesDecode(attributes: seq<Attribute>, f: Found)
    requires ValidAttributes(attributes)
    ensures PaddedAttributes(EncodeAttributes(attributes))
    ensures WalkAttributes(EncodeAttributes(attributes), f) == Gather(attributes, f)
  {
    if attributes != [] {
      var a := attributes[0];
      assert forall x :: x in attributes[1..] ==> x in attributes;
      var f' := if Short(a.kind, |a.payload|) then f else Absorb(a.kind, a.payload, f);
      AttributesDecode(attributes[1..], f');
      AttributeDecodes(a, EncodeAttributes(attributes[1..]), f);
    }
  }

  lemma AttributeDecodes(a: Attribute, rest: seq<Byte>, f: Found)
    requires ValidAttribute(a) && PaddedAttributes(rest)
    ensures PaddedAttributes(EncodeAttribute(a) + rest)
    ensures WalkAttributes(EncodeAttribute(a) + rest, f)
            == if Short(a.kind, |a.payload|) then f else WalkAttributes(rest, Absorb(a.kind, a.payload, f))
  {
    AttributeHead(a, rest);
    if !Short(a.kind, |a.payload|) {
      AbsorbPrefix(a.kind, a.payload, (EncodeAttribute(a) + rest)[ATTRIBUTE..], f);
    }
  }

  /** Only the bytes of the attribute count. */
  lemma AbsorbPrefix(kind: U16, payload: seq<Byte>, b: seq<Byte>, f: Found)
    requires !Short(kind, |payload|) && (kind == NDA_DST ==> |payload| >= 4) && payload <= b
    ensures Absorb(kind, payload, f) == Absorb(kind, b, f)
  {
    if kind == NDA_LLADDR {
      assert payload[..MAC_BYTES] == b[..MAC_BYTES];
    }
  }

  lemma MessageHead(m: Message, rest: seq<Byte>)
    requires ValidMessage(m)
    ensures var b, len := EncodeMessage(m) + rest, HEADER + |Body(m)|;
      && MessageOk(b) && U32At(b, 0) == len && U16At(b, 4) == KindOf(m)
      && b[HEADER..len] == Body(m) && b[Align(len)..] == rest && Align(len) <= |b|
  {
    var e, len := EncodeMessage(m), HEADER + |Body(m)|;
    var b := e + rest;
    EncodedParts(m);
    Within(e, rest, 0, 4);
    Within(e, rest, 4, 6);
    Within(e, rest, HEADER, len);
    WordsAt(b, 0);
    WordsAt(b, 4);
  }

  lemma Within(e: seq<Byte>, rest: seq<Byte>, from: nat, end: nat)
    requires from <= end <= |e|
    ensures (e + rest)[from..end] == e[from..end]
  {
  }

  lemma WordsAt(b: seq<Byte>, i: nat)
    requires i + 4 <= |b|
    ensures U32At(b, i) == U32At(b[i..i + 4], 0) && U16At(b, i) == U16At(b[i..i + 2], 0)
  {
  }

  lemma EncodedParts(m: Message)
    requires ValidMessage(m)
    ensures var e, len := EncodeMessage(m), HEADER + |Body(m)|;
      && len <= |e| && e[..4] == Bytes32(len) && e[4..6] == Bytes16(KindOf(m)) && e[HEADER..len] == Body(m)
  {
    var e, len := EncodeMessage(m), HEADER + |Body(m)|;
    var head := Bytes32(len) + Bytes16(KindOf(m)) + Zeros(10) + Body(m);
    assert |head| == len && e[..len] == head;
    Parts(e, Bytes32(len), Bytes16(KindOf(m)), Zeros(10), Body(m));
  }

  lemma Parts(e: seq<Byte>, a: seq<Byte>, b: seq<Byte>, c: seq<Byte>, d: seq<Byte>)
    requires |a + b + c + d| <= |e| && e[..|a + b + c + d|] == a + b + c + d
    ensures e[..|a|] == a && e[|a|..|a| + |b|] == b
    ensures e[|a| + |b| + |c|..|a| + |b| + |c| + |d|] == d
  {
    var all := a + b + c + d;
    assert forall i :: 0 <= i < |all| ==> e[i] == e[..|all|][i] == all[i];
  }

  lemma NeighbourFields(m: Message, b: seq<Byte>)
    requires m.Neighbour? && ValidMessage(m) && |b| >= HEADER + |Body(m)| && b[HEADER..HEADER + |Body(m)|] == Body(m)
    ensures |Body(m)| == NDMSG + |EncodeAttributes(m.attributes)|
    ensures b[HEADER] == m.family && U32At(b, HEADER + 4) == m.interfaceIndex && U16At(b, HEADER + 8) == m.state
    ensures b[HEADER + NDMSG..HEADER + |Body(m)|] == EncodeAttributes(m.attributes)
  {
    var body := Body(m);
    var at := b[HEADER..HEADER + |body|];
    assert b[HEADER] == at[0];
    assert b[HEADER + 4] == at[4] && b[HEADER + 5] == at[5] && b[HEADER + 6] == at[6] && b[HEADER + 7] == at[7];
    assert b[HEADER + 8] == at[8] && b[HEADER + 9] == at[9];
    assert body[4..8] == Bytes32(m.interfaceIndex) && body[8..10] == Bytes16(m.state);
    assert U32At(body[4..8], 0) == U32At(body, 4) && U16At(body[8..10], 0) == U16At(body, 8);
    assert body[NDMSG..] == EncodeAttributes(m.attributes);
  }

  lemma MessageDecodes(names: Names, m: Message, rest: seq<Byte>)
    requires ValidMessage(m)
    ensures var b := EncodeMessage(m) + rest;
      && MessageOk(b) && (IsNeighbour(b) ==> NeighbourOk(b)) && ErrorOk(b)
      && (IsFinal(b) <==> Final(m))
      && EntryAt(names, b) == EntryOf(names, m)
      && Align(U32At(b, 0)) <= |b| && b[Align(U32At(b, 0))..] == rest
  {
    MessageHead(m, rest);
    if m.Neighbour? {
      NeighbourFields(m, EncodeMessage(m) + rest);
      AttributesDecode(m.attributes, NOTHING);
    }
  }

  /** On every stream of well-formed messages the walk stays inside the bytes, and it yields exactly the entries that
      the messages before the first DONE or ERROR mean. */
  lemma {:induction false} MessagesDecode(names: Names, ms: seq<Message>)
    requires ValidMessages(ms)
    ensures PaddedMessages(Encode(ms))
    ensures WalkMessages(names, Encode(ms)) == Meaning(names, ms)
    ensures Stops(Encode(ms)) <==> Ends(ms)
  {
    if ms != [] {
      assert forall m :: m in ms[1..] ==> m in ms;
      MessageDecodes(names, ms[0], Encode(ms[1..]));
      EndsCons(ms);
      MessagesDecode(names, ms[1..]);
    }
  }
}
