/** The batched send buffers: one byte array cut into equal regions, with an address and a slice descriptor per batch
    position. */
module SendQueues {
  import opened Words
  import opened Clock
  import opened Icmp
  import opened Ipv4
  import opened Sequences

  /** What the kernel is asked to transmit for one position. */
  datatype Message = Message(target: U32, bytes: seq<Byte>)

  /** An echo request to a host of the scanned range, carrying the sequence number of an allocation. */
  datatype Echo = Echo(host: nat, allocation: nat, sent: Time)

  /** A slice of the byte array, as handed to the kernel. */
  datatype Slice = Slice(start: nat, len: nat)

  /** Where region `i` begins. */
  function Start(i: nat, size: nat): nat {
    if i == 0 then 0 else Start(i - 1, size) + size
  }

  lemma {:induction false} StartIs(i: nat, size: nat)
    ensures Start(i, size) == i * size
  {
    if i > 0 {
      StartIs(i - 1, size);
      assert i * size == (i - 1) * size + size;
    }
  }

  lemma {:induction false} RegionsApart(i: nat, j: nat, size: nat)
    requires i < j
    ensures Start(i, size) + size <= Start(j, size)
    decreases j
  {
    if i < j - 1 {
      RegionsApart(i, j - 1, size);
    }
  }

  /** `s` with `bs` written over it at `start`. */
  function Splice(s: seq<Byte>, start: nat, bs: seq<Byte>): (r: seq<Byte>)
    requires start + |bs| <= |s|
    ensures |r| == |s|
  {
    s[..start] + bs + s[start + |bs|..]
  }

  lemma SpliceTwice(s: seq<Byte>, start: nat, a: seq<Byte>, b: seq<Byte>)
    requires start + |a| + |b| <= |s|
    ensures Splice(Splice(s, start, a), start + |a|, b) == Splice(s, start, a + b)
  {
  }

  lemma SameBefore(a: seq<Byte>, b: seq<Byte>, cut: nat, at: nat, n: nat)
    requires at + n <= cut <= |a| == |b| && a[..cut] == b[..cut]
    ensures a[at..at + n] == b[at..at + n]
  {
    assert a[at..at + n] == a[..cut][at..at + n];
  }

  lemma SameBehind(a: seq<Byte>, b: seq<Byte>, cut: nat, at: nat, n: nat)
    requires cut <= at && at + n <= |a| == |b| && a[cut..] == b[cut..]
    ensures a[at..at + n] == b[at..at + n]
  {
    assert a[at..at + n] == a[cut..][at - cut..at - cut + n];
    assert b[at..at + n] == b[cut..][at - cut..at - cut + n];
  }

  /** The bytes that stand for an echo request, as sent by scanner `id` with `padding` bytes behind the payload. */
  function EncodeEcho(base: U32, id: U16, padding: nat, e: Echo): Message {
    var target := HostAddress(base, e.host);
    Message(target, Request(id, SeqAt(e.allocation), target, e.sent, padding))
  }

  class SendQueue {
    const count: nat
    const padding: nat
    const id: U16
    const packets: array<Byte>
    const addresses: array<U32>
    const slices: array<Slice>

    /** The size of one region. */
    const size: nat := MIN_REPLY + padding

    ghost predicate Shape() {
      packets.Length == Start(count, size) && addresses.Length == count && slices.Length == count
    }

    constructor (count: nat, padding: nat, id: U16)
      ensures Shape() && this.count == count && this.padding == padding && this.id == id
      ensures fresh(packets) && fresh(addresses) && fresh(slices)
    {
      this.count := count;
      this.padding := padding;
      this.id := id;
      StartIs(count, MIN_REPLY + padding);
      packets := new Byte[count * (MIN_REPLY + padding)](_ => 0);
      addresses := new U32[count](_ => 0);
      slices := new Slice[count](_ => Slice(0, 0));
    }

    /** Position `i` has been filled in and points at its own region. */
    ghost predicate Ready(i: nat)
      requires Shape()
      reads slices
    {
      i < count && slices[i] == Slice(Start(i, size), size)
    }

    ghost function At(i: nat): Message
      requires Shape() && Ready(i)
      reads packets, addresses, slices
    {
      RegionsApart(i, count, size);
      Message(addresses[i], packets[slices[i].start..slices[i].start + slices[i].len])
    }

    /** Writes `bs` into the array at `start`. */
    method Copy(start: nat, bs: seq<Byte>)
      requires start + |bs| <= packets.Length
      modifies packets
      ensures packets[..] == Splice(old(packets[..]), start, bs)
    {
      for k := 0 to |bs|
        invariant packets[..start] == old(packets[..start])
        invariant packets[start..start + k] == bs[..k]
        invariant packets[start + k..] == old(packets[start + k..])
      {
        packets[start + k] := bs[k];
        assert packets[start..start + k + 1] == packets[start..start + k] + [bs[k]];
        assert old(packets[start + k..])[1..] == old(packets[start + k + 1..]);
      }
      assert packets[..] == packets[..start] + packets[start..start + |bs|] + packets[start + |bs|..];
    }

    /** Writes the padding bytes at `start`. */
    method Pad(start: nat)
      requires start + padding <= packets.Length
      modifies packets
      ensures packets[..] == Splice(old(packets[..]), start, Padding(padding))
    {
      for k := 0 to padding
        invariant packets[..start] == old(packets[..start])
        invariant packets[start..start + k] == Padding(padding)[..k]
        invariant packets[start + k..] == old(packets[start + k..])
      {
        packets[start + k] := PaddingByte(k);
        assert packets[start..start + k + 1] == packets[start..start + k] + [PaddingByte(k)];
        assert old(packets[start + k..])[1..] == old(packets[start + k + 1..]);
      }
      assert packets[..] == packets[..start] + packets[start..start + padding] + packets[start + padding..];
    }

    /** Writes the bytes of one request at `start`. */
    method WriteRequest(start: nat, target: U32, seqNo: U16, sent: Time)
      requires start + size <= packets.Length
      modifies packets
      ensures packets[..] == Splice(old(packets[..]), start, Request(id, seqNo, target, sent, padding))
    {
      Copy(start, Header(id, seqNo));
      Copy(start + HEADER_SIZE, Payload(target, sent));
      Pad(start + MIN_REPLY);
      SpliceTwice(old(packets[..]), start, Header(id, seqNo), Payload(target, sent));
      SpliceTwice(old(packets[..]), start, Header(id, seqNo) + Payload(target, sent), Padding(padding));
    }

    /** Where position `i` begins. */
    method Offset(i: nat) returns (start: nat)
      requires Shape() && i < count
      ensures start == Start(i, size) && start + size <= packets.Length
    {
      RegionsApart(i, count, size);
      StartIs(i, size);
      start := i * size;
    }

    /** Fills position `i`.  Its message is the request for `target`, and every other position keeps its message. */
    method Prepare(i: nat, target: U32, seqNo: U16, sent: Time)
      requires Shape() && i < count
      modifies packets, addresses, slices
      ensures Ready(i) && At(i) == Message(target, Request(id, seqNo, target, sent, padding))
      ensures forall j: nat :: j != i && old(Ready(j)) ==> Ready(j) && At(j) == old(At(j))
    {
      var start := Offset(i);
      WriteRequest(start, target, seqNo, sent);
      addresses[i] := target;
      slices[i] := Slice(start, size);
      ghost var before, after := old(packets[..]), packets[..];
      assert packets[start..start + size] == after[start..start + size];
      forall j: nat | j < count && j != i && old(Ready(j))
        ensures At(j) == old(At(j))
      {
        OtherRegion(before, after, i, j);
        var at := Start(j, size);
        assert packets[at..at + size] == after[at..at + size];
        assert old(packets[at..at + size]) == before[at..at + size];
      }
    }

    lemma OtherRegion(before: seq<Byte>, after: seq<Byte>, i: nat, j: nat)
      requires i < count && j < count && i != j && |before| == |after| == Start(count, size)
      requires var start := Start(i, size);
        && start + size <= |before|
        && before[..start] == after[..start]
        && before[start + size..] == after[start + size..]
      ensures var at := Start(j, size); at + size <= |before| && before[at..at + size] == after[at..at + size]
    {
      RegionsApart(j, count, size);
      var start, at := Start(i, size), Start(j, size);
      if j < i {
        RegionsApart(j, i, size);
        SameBefore(before, after, start, at, size);
      } else {
        RegionsApart(i, j, size);
        SameBehind(before, after, start + size, at, size);
      }
    }

    /** The first positions carry these requests. */
    ghost predicate Holds(base: U32, echoes: seq<Echo>)
      requires Shape()
      reads packets, addresses, slices
    {
      forall j: nat :: j < |echoes| ==> Ready(j) && At(j) == EncodeEcho(base, id, padding, echoes[j])
    }

    /** Fills the next position behind `echoes`. */
    method Append(i: nat, target: U32, seqNo: U16, sent: Time, ghost base: U32, ghost echoes: seq<Echo>, ghost e: Echo)
      requires Shape() && i < count && |echoes| == i && Holds(base, echoes)
      requires target == HostAddress(base, e.host) && seqNo == SeqAt(e.allocation) && sent == e.sent
      modifies packets, addresses, slices
      ensures Holds(base, echoes + [e])
    {
      Prepare(i, target, seqNo, sent);
    }

    /** The requests that the kernel reads off `n` positions from `from` on. */
    ghost method Transmit(from: nat, n: nat, base: U32, echoes: seq<Echo>) returns (es: seq<Echo>)
      requires Shape() && Holds(base, echoes) && from + n <= |echoes|
      ensures |es| == n
      ensures forall j: nat :: j < n ==> Ready(from + j) && At(from + j) == EncodeEcho(base, id, padding, es[j])
      ensures es == echoes[from..from + n]
    {
      es := echoes[from..from + n];
    }
  }
}
