/** ICMP echo messages: what a request's bytes are, and what is read back out of a reply.  The header is the "Echo or
    Echo Reply Message" of RFC 792; the fields behind it are the scanner's own, in little-endian host order. */
module Icmp {
  import opened Words
  import opened Clock

  type Byte = x: int | 0 <= x < 256
  type U16 = x: int | 0 <= x < 0x1_0000

  const ICMP_ECHO: Byte := 8
  const ICMP_ECHOREPLY: Byte := 0

  const HEADER_SIZE := 8
  const PAYLOAD_SIZE := 24
  const MIN_REPLY := HEADER_SIZE + PAYLOAD_SIZE

  // ----- Integers as bytes -----

  function LittleEndian(x: nat, n: nat): (bs: seq<Byte>)
    ensures |bs| == n
  {
    if n == 0 then [] else [x % 256] + LittleEndian(x / 256, n - 1)
  }

  function FromLittleEndian(bs: seq<Byte>): nat {
    if bs == [] then 0 else bs[0] + 256 * FromLittleEndian(bs[1..])
  }

  function BigEndian(x: nat, n: nat): (bs: seq<Byte>)
    ensures |bs| == n
  {
    if n == 0 then [] else BigEndian(x / 256, n - 1) + [x % 256]
  }

  function FromBigEndian(bs: seq<Byte>): nat {
    if bs == [] then 0 else 256 * FromBigEndian(bs[..|bs| - 1]) + bs[|bs| - 1]
  }

  lemma {:induction false} LittleEndianInverts(x: nat, n: nat)
    requires x < Pow2(8 * n)
    ensures FromLittleEndian(LittleEndian(x, n)) == x
  {
    if n > 0 {
      assert Pow2(8 * n) == 256 * Pow2(8 * (n - 1)) by { Pow2By8(8 * (n - 1)); }
      LittleEndianInverts(x / 256, n - 1);
      assert LittleEndian(x, n)[1..] == LittleEndian(x / 256, n - 1);
    }
  }

  lemma {:induction false} LittleEndianFits(bs: seq<Byte>)
    ensures FromLittleEndian(bs) < Pow2(8 * |bs|)
  {
    if bs != [] {
      LittleEndianFits(bs[1..]);
      assert Pow2(8 * |bs|) == 256 * Pow2(8 * (|bs| - 1)) by { Pow2By8(8 * (|bs| - 1)); }
    }
  }

  lemma {:induction false} BigEndianInverts(x: nat, n: nat)
    requires x < Pow2(8 * n)
    ensures FromBigEndian(BigEndian(x, n)) == x
  {
    if n > 0 {
      assert Pow2(8 * n) == 256 * Pow2(8 * (n - 1)) by { Pow2By8(8 * (n - 1)); }
      BigEndianInverts(x / 256, n - 1);
      assert BigEndian(x, n)[..n - 1] == BigEndian(x / 256, n - 1);
    }
  }

  lemma Pow2By8(k: nat)
    ensures Pow2(k + 8) == 256 * Pow2(k)
  {
    assert Pow2(k + 2) == 4 * Pow2(k);
    assert Pow2(k + 4) == 4 * Pow2(k + 2);
    assert Pow2(k + 6) == 4 * Pow2(k + 4);
    assert Pow2(k + 8) == 4 * Pow2(k + 6);
  }

  const TWO_TO_64 := 0x1_0000_0000_0000_0000

  lemma Pow2Of64()
    ensures Pow2(64) == TWO_TO_64
  {
    assert Pow2(8 * 0) == 1;
    Pow2By8(0);
    Pow2By8(8);
    Pow2By8(16);
    Pow2By8(24);
    Pow2By8(32);
    Pow2By8(40);
    Pow2By8(48);
    Pow2By8(56);
  }

  /** Two's complement in 64 bits. */
  function Unsigned64(x: int): nat {
    x % TWO_TO_64
  }

  function Signed64(x: nat): int {
    if x < TWO_TO_64 / 2 then x else x - TWO_TO_64
  }

  // ----- Requests and replies -----

  function Header(id: U16, seqNo: U16): (bs: seq<Byte>)
    ensures |bs| == HEADER_SIZE
  {
    [ICMP_ECHO, 0, 0, 0] + BigEndian(id, 2) + BigEndian(seqNo, 2)
  }

  /** The target, four bytes of struct padding, and the send time. */
  function Payload(target: U32, sent: Time): (bs: seq<Byte>)
    ensures |bs| == PAYLOAD_SIZE
  {
    LittleEndian(target, 4) + [0, 0, 0, 0] + LittleEndian(Unsigned64(sent.sec), 8)
    + LittleEndian(Unsigned64(sent.nsec), 8)
  }

  function PaddingByte(i: nat): Byte {
    (i + 26) % 10
  }

  function Padding(n: nat): seq<Byte> {
    seq(n, i requires 0 <= i => PaddingByte(i))
  }

  function Request(id: U16, seqNo: U16, target: U32, sent: Time, padding: nat): (bs: seq<Byte>)
    ensures |bs| == MIN_REPLY + padding
  {
    Header(id, seqNo) + Payload(target, sent) + Padding(padding)
  }

  /** A request is an echo message with code and checksum 0, and its identifier and sequence number are in network
      order. */
  lemma RequestHeader(id: U16, seqNo: U16, target: U32, sent: Time, padding: nat)
    ensures var bs := Request(id, seqNo, target, sent, padding);
      && bs[0] == ICMP_ECHO && bs[1] == 0 && bs[2] == 0 && bs[3] == 0
      && FromBigEndian(bs[4..6]) == id && FromBigEndian(bs[6..8]) == seqNo
  {
    var bs, header := Request(id, seqNo, target, sent, padding), Header(id, seqNo);
    assert bs[..HEADER_SIZE] == header;
    assert bs[4..6] == header[4..6] == BigEndian(id, 2) && bs[6..8] == header[6..8] == BigEndian(seqNo, 2);
    Pow2Of16();
    BigEndianInverts(id, 2);
    BigEndianInverts(seqNo, 2);
  }

  lemma Pow2Of16()
    ensures Pow2(16) == 0x1_0000
  {
    Pow2By8(0);
    Pow2By8(8);
  }

  lemma {:induction false} LittleEndianBytes(x: nat, n: nat, i: nat)
    requires i < n
    ensures LittleEndian(x, n)[i] == x / Pow2(8 * i) % 256
  {
    if i > 0 {
      LittleEndianBytes(x / 256, n - 1, i - 1);
      assert Pow2(8 * i) == 256 * Pow2(8 * (i - 1)) by { Pow2By8(8 * (i - 1)); }
      DivideTwice(x, 256, Pow2(8 * (i - 1)));
    }
  }

  /** Every byte of a request.  The header's two fields have their high byte first; the target and the two parts of the
      send time have their low byte first, four bytes of struct padding behind the target; then come the padding
      bytes. */
  lemma RequestBytes(id: U16, seqNo: U16, target: U32, sent: Time, padding: nat)
    ensures var bs := Request(id, seqNo, target, sent, padding);
      && |bs| == 32 + padding
      && bs[..8] == [8, 0, 0, 0, id / 256, id % 256, seqNo / 256, seqNo % 256]
      && bs[8..12] == [target % 256, target / 0x100 % 256, target / 0x1_0000 % 256, target / 0x100_0000]
      && bs[12..16] == [0, 0, 0, 0]
      && (forall i :: 0 <= i < 8 ==> bs[16 + i] == sent.sec % 0x1_0000_0000_0000_0000 / Pow2(8 * i) % 256)
      && (forall i :: 0 <= i < 8 ==> bs[24 + i] == sent.nsec / Pow2(8 * i) % 256)
      && (forall i :: 32 <= i < |bs| ==> bs[i] == (i - 32 + 26) % 10)
  {
    var bs, payload := Request(id, seqNo, target, sent, padding), Payload(target, sent);
    assert bs[..8] == Header(id, seqNo) && bs[8..32] == payload;
    HeaderBytes(id, seqNo);
    PayloadBytes(target, sent);
    assert bs[8..12] == bs[8..32][..4] && bs[12..16] == bs[8..32][4..8];
    assert forall i :: 0 <= i < 24 ==> bs[8 + i] == bs[8..32][i];
    forall i | 0 <= i < 8
      ensures bs[16 + i] == sent.sec % TWO_TO_64 / Pow2(8 * i) % 256
      ensures bs[24 + i] == sent.nsec / Pow2(8 * i) % 256
    {
      assert bs[16 + i] == payload[8 + i] && bs[24 + i] == payload[16 + i];
    }
  }

  lemma HeaderBytes(id: U16, seqNo: U16)
    ensures Header(id, seqNo) == [8, 0, 0, 0, id / 256, id % 256, seqNo / 256, seqNo % 256]
  {
    assert BigEndian(id, 2) == [id / 256, id % 256] by { TwoBytes(id); }
    assert BigEndian(seqNo, 2) == [seqNo / 256, seqNo % 256] by { TwoBytes(seqNo); }
  }

  lemma TwoBytes(x: U16)
    ensures BigEndian(x, 2) == [x / 256, x % 256]
  {
    assert BigEndian(x / 256, 1) == [x / 256 % 256];
  }

  lemma PayloadBytes(target: U32, sent: Time)
    ensures var bs := Payload(target, sent);
      && bs[..4] == [target % 256, target / 0x100 % 256, target / 0x1_0000 % 256, target / 0x100_0000]
      && bs[4..8] == [0, 0, 0, 0]
      && (forall i :: 0 <= i < 8 ==> bs[8 + i] == sent.sec % TWO_TO_64 / Pow2(8 * i) % 256)
      && (forall i :: 0 <= i < 8 ==> bs[16 + i] == sent.nsec / Pow2(8 * i) % 256)
  {
    FourBytes(target);
    var bs, sec, nsec := Payload(target, sent), Unsigned64(sent.sec), Unsigned64(sent.nsec);
    forall i | 0 <= i < 8
      ensures bs[8 + i] == sec / Pow2(8 * i) % 256 && bs[16 + i] == nsec / Pow2(8 * i) % 256
    {
      LittleEndianBytes(sec, 8, i);
      LittleEndianBytes(nsec, 8, i);
    }
  }

  lemma FourBytes(x: U32)
    ensures LittleEndian(x, 4) == [x % 256, x / 0x100 % 256, x / 0x1_0000 % 256, x / 0x100_0000]
  {
    var a := x / 256;
    var b := a / 256;
    assert LittleEndian(b / 256, 1) == [b / 256 % 256];
    assert LittleEndian(b, 2) == [b % 256] + LittleEndian(b / 256, 1);
    assert LittleEndian(a, 3) == [a % 256] + LittleEndian(b, 2);
  }

  function ReplyTarget(bs: seq<Byte>): U32
    requires |bs| >= MIN_REPLY
  {
    LittleEndianFits(bs[8..12]);
    Pow2Of32();
    FromLittleEndian(bs[8..12])
  }

  function ReplySec(bs: seq<Byte>): int
    requires |bs| >= MIN_REPLY
  {
    Signed64(FromLittleEndian(bs[16..24]))
  }

  function ReplyNsec(bs: seq<Byte>): int
    requires |bs| >= MIN_REPLY
  {
    Signed64(FromLittleEndian(bs[24..32]))
  }

  /** `reply` echoes the request: the type is changed and the data comes back, perhaps cut off behind the payload; the
      rest of the header may differ, since the kernel and the peer rewrite it. */
  ghost predicate Echoes(reply: seq<Byte>, request: seq<Byte>) {
    && MIN_REPLY <= |reply| <= |request|
    && reply[0] == ICMP_ECHOREPLY
    && reply[HEADER_SIZE..] == request[HEADER_SIZE..|reply|]
  }

  /** Reading an echo gives back the request's target and send time. */
  lemma EchoRoundTrip(reply: seq<Byte>, id: U16, seqNo: U16, target: U32, sent: Time, padding: nat)
    requires Echoes(reply, Request(id, seqNo, target, sent, padding))
    ensures ReplyTarget(reply) == target && ReplyNsec(reply) == sent.nsec
    ensures Fits64(sent.sec) ==> ReplySec(reply) == sent.sec
  {
    EchoedPayload(reply, id, seqNo, target, sent, padding);
    PayloadFields(reply, target, sent);
    Pow2Of32();
    Pow2Of64();
    LittleEndianInverts(target, 4);
    LittleEndianInverts(Unsigned64(sent.sec), 8);
    LittleEndianInverts(Unsigned64(sent.nsec), 8);
  }

  lemma EchoedPayload(reply: seq<Byte>, id: U16, seqNo: U16, target: U32, sent: Time, padding: nat)
    requires Echoes(reply, Request(id, seqNo, target, sent, padding))
    ensures reply[HEADER_SIZE..MIN_REPLY] == Payload(target, sent)
  {
    var request := Request(id, seqNo, target, sent, padding);
    assert request[HEADER_SIZE..MIN_REPLY] == Payload(target, sent);
    assert reply[HEADER_SIZE..MIN_REPLY] == reply[HEADER_SIZE..][..PAYLOAD_SIZE];
    assert request[HEADER_SIZE..|reply|][..PAYLOAD_SIZE] == request[HEADER_SIZE..MIN_REPLY];
  }

  lemma PayloadFields(reply: seq<Byte>, target: U32, sent: Time)
    requires |reply| >= MIN_REPLY && reply[HEADER_SIZE..MIN_REPLY] == Payload(target, sent)
    ensures reply[8..12] == LittleEndian(target, 4)
    ensures reply[16..24] == LittleEndian(Unsigned64(sent.sec), 8)
    ensures reply[24..32] == LittleEndian(Unsigned64(sent.nsec), 8)
  {
    var payload := Payload(target, sent);
    assert forall i :: 0 <= i < PAYLOAD_SIZE ==>
      reply[HEADER_SIZE + i] == reply[HEADER_SIZE..MIN_REPLY][i] == payload[i];
    assert payload[..4] == LittleEndian(target, 4);
    assert payload[8..16] == LittleEndian(Unsigned64(sent.sec), 8);
    assert payload[16..24] == LittleEndian(Unsigned64(sent.nsec), 8);
    assert reply[8..12] == payload[..4];
    assert reply[16..24] == payload[8..16];
    assert reply[24..32] == payload[16..24];
  }
}
