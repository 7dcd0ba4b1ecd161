/** IPv4 ranges: CIDR parsing after the text has been read, host indices, and the local-subnet decision. */
module Ipv4 {
  import opened Words
  import opened Wrappers

  const BITS_IN_IPV4 := 32

  /** `count` consecutive addresses from `base`. */
  datatype Range = Range(base: U32, count: U32)

  function Mask(prefix: nat): U32
    requires prefix <= BITS_IN_IPV4
  {
    if prefix == 0 then 0 else ShiftLeft(WORD - 1, BITS_IN_IPV4 - prefix)
  }

  function Complement(x: U32): (r: U32)
    ensures r == WORD - 1 - x && r == Not(x, 32)
  {
    Pow2Of32();
    NotValue(x, 32);
    Not(x, 32)
  }

  function Network(ip: U32, mask: U32): U32 {
    AndBelow(ip, mask);
    And(ip, mask)
  }

  /** The range named by an address and an optional prefix; `None` stands for the rejected prefixes. */
  function ParseCidr(address: U32, prefix: Option<int>): Option<Range> {
    match prefix
    case None => Some(Range(address, 1))
    case Some(p) =>
      if p < 0 || p > BITS_IN_IPV4 then None else
        Some(Range(Network(address, Mask(p)), BlockSize(p)))
  }

  function BlockSize(prefix: nat): U32
    requires prefix <= BITS_IN_IPV4
  {
    if prefix == BITS_IN_IPV4 then 1 else Wrap(Complement(Mask(prefix)) + 1)
  }

  /** A nonempty range that ends inside the address space and whose indices fit a 32-bit signed integer. */
  predicate Scannable(base: U32, total: nat) {
    base + total <= WORD && total <= 0x8000_0000
  }

  lemma MaskValue(p: nat)
    requires p <= 32
    ensures Pow2(32 - p) <= Pow2(32) && Mask(p) == Pow2(32) - Pow2(32 - p)
  {
    var k := 32 - p;
    Pow2Of32();
    Pow2Splits(k, 32);
    if p > 0 {
      assert (WORD - 1) * Pow2(k) == WORD * (Pow2(k) - 1) + (WORD - Pow2(k));
      RemainderIs((WORD - 1) * Pow2(k), WORD, Pow2(k) - 1, WORD - Pow2(k));
    }
  }

  /** `low..=high` is an aligned block of 2^k addresses. */
  ghost predicate Block(low: nat, high: nat, k: nat) {
    low % Pow2(k) == 0 && high == low + Pow2(k) - 1 && high < WORD
  }

  lemma BlockSizeValue(p: nat)
    requires 1 <= p <= 32
    ensures BlockSize(p) == Pow2(32 - p)
  {
    Pow2Of32();
    MaskValue(p);
    if p < 32 {
      Pow2Splits(32 - p, 31);
    }
  }

  lemma CidrValue(address: U32, p: int)
    requires 1 <= p <= 32
    ensures ParseCidr(address, Some(p)) == Some(Range(Network(address, Mask(p)), BlockSize(p)))
    ensures Network(address, Mask(p)) == address - address % Pow2(32 - p)
  {
    Pow2Of32();
    MaskValue(p);
    AndHighBits(address, 32 - p, 32);
  }

  /** Section 3.1 of RFC 4632: a prefix of length 1 to 32 names the aligned block of 2^(32 - prefix) addresses that
      holds the given address; the block never runs past the last address. */
  lemma CidrBlock(address: U32, p: int)
    requires 1 <= p <= 32
    ensures ParseCidr(address, Some(p)).Some?
    ensures var r := ParseCidr(address, Some(p)).value;
      && r.count == Pow2(32 - p)
      && r.base % r.count == 0
      && r.base <= address < r.base + r.count
      && Scannable(r.base, r.count)
      && Block(r.base, r.base + r.count - 1, 32 - p)
  {
    CidrValue(address, p);
    BlockSizeValue(p);
    Pow2Of32();
    Pow2Splits(32 - p, 31);
    Pow2Splits(32 - p, 32);
    AlignedBlock(address, Pow2(32 - p), WORD);
  }

  /** A prefix of 31 at an even address names that address and the next. */
  lemma PairOfHosts(address: U32, p: int)
    requires p == 31 && address % 2 == 0
    ensures ParseCidr(address, Some(p)) == Some(Range(address, 2))
  {
    assert Pow2(32 - p) == 2 * Pow2(31 - p) && Pow2(31 - p) == 1;
    CidrValue(address, p);
    BlockSizeValue(p);
  }

  lemma AlignedBlock(x: nat, size: nat, top: nat)
    requires size > 0 && top % size == 0 && x < top
    ensures (x - x % size) % size == 0
    ensures x - x % size <= x < x - x % size + size <= top
  {
    var q := x / size;
    var base := size * q;
    assert x == base + x % size;
    MultipleOf(size, q);
    assert (base + size) % size == 0 by { RemainderIs(base + size, size, q + 1, 0); }
    MultiplesApart(base + size, top, size);
  }

  /** An address without a prefix names that address alone, as one with a prefix of 32 does; a prefix that is negative
      or greater than 32 is rejected, and nothing else is. */
  lemma ParseCidrAccepts(address: U32, prefix: Option<int>)
    ensures ParseCidr(address, prefix).None? <==> prefix.Some? && !(0 <= prefix.value <= 32)
    ensures prefix == None || prefix == Some(32) ==> ParseCidr(address, prefix) == Some(Range(address, 1))
  {
    if prefix == Some(32) {
      assert Pow2(0) == 1;
      CidrValue(address, 32);
    }
  }

  /** Prefix 0 wraps the count to zero: the whole address space is parsed as an empty scan. */
  lemma PrefixZeroIsEmpty(address: U32)
    ensures ParseCidr(address, Some(0)) == Some(Range(0, 0))
  {
  }

  /** Every accepted input is scannable. */
  lemma ParsedIsScannable(address: U32, prefix: Option<int>)
    requires ParseCidr(address, prefix).Some?
    ensures var r := ParseCidr(address, prefix).value; Scannable(r.base, r.count)
  {
    match prefix
    case None =>
    case Some(p) =>
      if p == 0 {
        PrefixZeroIsEmpty(address);
      } else {
        CidrBlock(address, p);
      }
  }

  // ----- Host indices -----

  /** The address of host `h`, computed in 32 bits. */
  function HostAddress(base: U32, h: nat): U32 {
    Wrap(base + Wrap(h))
  }

  function HostIndex(base: U32, total: nat, ip: U32): int {
    if ip < base then -1 else
      var index: U32 := ip - base;
      if index >= total then -1 else index
  }

  lemma HostIndexOf(base: U32, total: nat, h: nat)
    requires Scannable(base, total) && h < total
    ensures HostAddress(base, h) == base + h && HostIndex(base, total, base + h) == h
  {
    assert Wrap(h) == h && Wrap(base + h) == base + h;
  }

  /** On a scannable range the address never wraps, the index undoes it, and -1 is returned exactly outside. */
  lemma HostIndexInverts(base: U32, total: nat)
    requires Scannable(base, total)
    ensures forall h: nat :: h < total ==> HostAddress(base, h) == base + h && HostIndex(base, total, base + h) == h
    ensures forall ip: U32 :: HostIndex(base, total, ip) ==
                              if base <= ip < base + total then ip - base else -1
    ensures forall ip: U32 :: -1 <= HostIndex(base, total, ip) < 0x8000_0000
  {
    forall h: nat | h < total
      ensures HostAddress(base, h) == base + h && HostIndex(base, total, base + h) == h
    {
      HostIndexOf(base, total, h);
    }
    forall ip: U32
      ensures HostIndex(base, total, ip) == if base <= ip < base + total then ip - base else -1
    {
    }
  }

  // ----- The local interface -----

  /** An entry of the interface list; `None` stands for a missing part, `inet` for the AF_INET family. */
  datatype Interface = Interface(name: string, address: Option<U32>, mask: Option<U32>, inet: bool,
                                 up: bool, loopback: bool, broadcast: bool)

  datatype NetworkInterface =
    NetworkInterface(name: string, ip: U32, networkIp: U32, broadcastIp: U32, isLocal: bool)

  const NO_INTERFACE := NetworkInterface("", 0, 0, 0, false)

  predicate Selectable(i: Interface, localIp: U32) {
    i.address.Some? && i.mask.Some? && i.inet && i.up && !i.loopback && i.broadcast && i.address.value == localIp
  }

  function TargetEnd(base: U32, total: U32): U32 {
    if total == 0 then base else Wrap(base + Wrap(total - 1))
  }

  function Broadcast(ip: U32, mask: U32): U32 {
    Pow2Of32();
    OrFits(ip, Complement(mask), 32);
    Or(ip, Complement(mask))
  }

  predicate Within(ip: U32, low: U32, high: U32) {
    low <= ip <= high
  }

  /** Whether some address lies both in `low..=high` and in `low'..=high'`. */
  ghost predicate Meet(low: U32, high: U32, low': U32, high': U32) {
    exists ip: U32 :: Within(ip, low, high) && Within(ip, low', high')
  }

  function Describe(i: Interface, base: U32, total: U32): NetworkInterface
    requires i.address.Some? && i.mask.Some?
  {
    var ip, mask := i.address.value, i.mask.value;
    var networkIp, broadcastIp := Network(ip, mask), Broadcast(ip, mask);
    NetworkInterface(i.name, ip, networkIp, broadcastIp,
                     base <= broadcastIp && TargetEnd(base, total) >= networkIp)
  }

  /** Bit by bit: the network address has the bits that the address and the mask both have, the broadcast address those
      that the address has or the mask has not. */
  lemma DescribeExact(i: Interface, base: U32, total: U32)
    requires i.address.Some? && i.mask.Some?
    ensures var r := Describe(i, base, total);
      && r.name == i.name && r.ip == i.address.value
      && forall k :: 0 <= k < 32 ==>
        && (Bit(r.networkIp, k) <==> Bit(i.address.value, k) && Bit(i.mask.value, k))
        && (Bit(r.broadcastIp, k) <==> Bit(i.address.value, k) || !Bit(i.mask.value, k))
  {
    var ip, mask := i.address.value, i.mask.value;
    forall k: nat | k < 32
      ensures Bit(Network(ip, mask), k) <==> Bit(ip, k) && Bit(mask, k)
      ensures Bit(Broadcast(ip, mask), k) <==> Bit(ip, k) || !Bit(mask, k)
    {
      AndBits(ip, mask, k);
      OrBits(ip, Complement(mask), k);
      NotBits(mask, 32, k);
    }
  }

  /** A contiguous mask of `p` bits gives the aligned block of 2^(32 - p) addresses around the interface's own. */
  lemma DescribeBlock(i: Interface, base: U32, total: U32, p: nat)
    requires i.address.Some? && p <= 32 && i.mask == Some(Mask(p))
    ensures var r := Describe(i, base, total);
      Block(r.networkIp, r.broadcastIp, 32 - p) && r.networkIp <= i.address.value <= r.broadcastIp
  {
    SubnetIsBlock(i.address.value, p);
    SubnetHoldsAddress(i.address.value, i.mask.value);
  }

  /** Whatever the mask, the subnet holds the interface's address; and the targets are local exactly when some address
      is both a target and in the subnet.  An empty range counts as its base alone. */
  lemma LocalExactly(i: Interface, base: U32, total: U32)
    requires i.address.Some? && i.mask.Some? && total <= WORD - base
    ensures var r := Describe(i, base, total);
      && r.networkIp <= r.ip <= r.broadcastIp
      && (r.isLocal <==> Meet(base, if total == 0 then base else base + total - 1, r.networkIp, r.broadcastIp))
  {
    var ip, mask := i.address.value, i.mask.value;
    SubnetHoldsAddress(ip, mask);
    OverlapIsMeet(base, if total == 0 then base else base + total - 1, Network(ip, mask), Broadcast(ip, mask));
  }

  /** Picks the interface that owns the address the kernel routes from: the first in the list that is up, is no loopback
      interface, can broadcast and has that IPv4 address.  `localIp` is `None` when the route lookup fails, `list` when
      the interfaces cannot be listed; `at` is the interface's place in the list, or -1. */
  method Fetch(base: U32, total: U32, localIp: Option<U32>, list: Option<seq<Interface>>)
    returns (r: NetworkInterface, ghost at: int)
    ensures -1 <= at && (at >= 0 ==> localIp.Some? && list.Some? && at < |list.value|)
    ensures localIp.Some? && list.Some? ==>
      forall k :: 0 <= k < (if at >= 0 then at else |list.value|) ==>
        var i := list.value[k];
        !(i.address == localIp && i.mask.Some? && i.inet && i.up && !i.loopback && i.broadcast)
    ensures at == -1 ==> r == NetworkInterface("", 0, 0, 0, false)
    ensures at >= 0 ==>
      var i := list.value[at];
      && i.address == localIp && i.mask.Some? && i.inet && i.up && !i.loopback && i.broadcast
      && r == Describe(i, base, total) && r.ip == localIp.value && r.networkIp <= r.ip <= r.broadcastIp
      && forall p :: 0 <= p <= 32 && i.mask == Some(Mask(p)) ==> Block(r.networkIp, r.broadcastIp, 32 - p)
  {
    r, at := NO_INTERFACE, -1;
    if localIp.None? || list.None? {
      return;
    }
    var targetEnd := TargetEnd(base, total);
    for k := 0 to |list.value|
      invariant forall j :: 0 <= j < k ==>
        var i := list.value[j];
        !(i.address == localIp && i.mask.Some? && i.inet && i.up && !i.loopback && i.broadcast)
      invariant r == NO_INTERFACE && at == -1
    {
      var i := list.value[k];
      if i.address.None? || i.mask.None? { continue; }
      if !i.inet { continue; }
      if !i.up || i.loopback || !i.broadcast { continue; }
      if i.address.value != localIp.value { continue; }
      var networkIp := Network(localIp.value, i.mask.value);
      var broadcastIp := Broadcast(localIp.value, i.mask.value);
      r := NetworkInterface(i.name, localIp.value, networkIp, broadcastIp,
                            base <= broadcastIp && targetEnd >= networkIp);
      at := k;
      SubnetHoldsAddress(localIp.value, i.mask.value);
      forall p | 0 <= p <= 32 && i.mask == Some(Mask(p))
        ensures Block(networkIp, broadcastIp, 32 - p)
      {
        SubnetIsBlock(localIp.value, p);
      }
      return;
    }
  }

  lemma SubnetHoldsAddress(ip: U32, mask: U32)
    ensures Network(ip, mask) <= ip <= Broadcast(ip, mask)
  {
    AndBelow(ip, mask);
    OrAbove(ip, Complement(mask));
  }

  lemma OverlapIsMeet(low: U32, high: U32, low': U32, high': U32)
    requires low <= high && low' <= high'
    ensures low <= high' && high >= low' <==> Meet(low, high, low', high')
  {
    if low <= high' && high >= low' {
      var ip: U32 := if low <= low' then low' else low;
      assert Within(ip, low, high) && Within(ip, low', high');
    }
  }

  /** A contiguous mask, the empty one included, gives the aligned block of its size around the interface's address. */
  lemma ContiguousSubnet(ip: U32, p: nat)
    requires p <= 32
    ensures Network(ip, Mask(p)) == ip - ip % Pow2(32 - p)
    ensures Broadcast(ip, Mask(p)) == ip - ip % Pow2(32 - p) + Pow2(32 - p) - 1
  {
    var low := 32 - p;
    Pow2Of32();
    MaskValue(p);
    AndHighBits(ip, low, 32);
    OrLowBits(ip, low);
    assert Complement(Mask(p)) == Pow2(low) - 1;
  }

  lemma SubnetIsBlock(ip: U32, p: nat)
    requires p <= 32
    ensures Block(Network(ip, Mask(p)), Broadcast(ip, Mask(p)), 32 - p)
  {
    ContiguousSubnet(ip, p);
    Pow2Of32();
    Pow2Splits(32 - p, 32);
    AlignedBlock(ip, Pow2(32 - p), WORD);
  }

  /** CIDR targets and the subnet of a contiguous mask are both blocks; two blocks meet exactly when the larger one
      contains the other. */
  lemma MeetIsContainment(a: U32, aEnd: U32, i: nat, b: U32, bEnd: U32, j: nat)
    requires i <= j && Block(a, aEnd, i) && Block(b, bEnd, j)
    ensures Meet(a, aEnd, b, bEnd) <==> b <= a && aEnd <= bEnd
    ensures Meet(b, bEnd, a, aEnd) <==> b <= a && aEnd <= bEnd
  {
    Nested(a, i, b, j);
    OverlapIsMeet(a, aEnd, b, bEnd);
    OverlapIsMeet(b, bEnd, a, aEnd);
  }

  /** Aligned blocks of sizes 2^i <= 2^j that overlap are nested. */
  lemma Nested(a: nat, i: nat, b: nat, j: nat)
    requires i <= j && a % Pow2(i) == 0 && b % Pow2(j) == 0
    ensures a < b + Pow2(j) && b < a + Pow2(i) <==> b <= a && a + Pow2(i) <= b + Pow2(j)
  {
    var m, n := Pow2(i), Pow2(j);
    Pow2Splits(i, j);
    MultipleChain(b, m, Pow2(j - i));
    if a < b + n && b < a + m {
      MultiplesApart(b, a, m);
      MultipleShift(a, m, m);
      MultipleShift(b, m, n);
      MultiplesApart(a + m, b + n, m);
    }
  }

  /** Every accepted input that names any address names a block. */
  lemma ParsedIsBlock(address: U32, prefix: Option<int>) returns (k: nat)
    requires ParseCidr(address, prefix).Some? && ParseCidr(address, prefix).value.count > 0
    ensures var r := ParseCidr(address, prefix).value;
      Block(r.base, r.base + r.count - 1, k) && r.count <= WORD - r.base
  {
    match prefix
    case None => k := 0;
    case Some(p) =>
      assert p != 0 by {
        PrefixZeroIsEmpty(address);
      }
      CidrBlock(address, p);
      k := 32 - p;
  }

  /** The decision as a whole: for targets as they are parsed and an interface with a contiguous mask, the targets are
      local if and only if one of the two ranges contains the other. */
  lemma LocalIsContainment(i: Interface, mask: nat, address: U32, prefix: Option<int>)
    requires i.address.Some? && mask <= 32 && i.mask == Some(Mask(mask))
    requires ParseCidr(address, prefix).Some? && ParseCidr(address, prefix).value.count > 0
    ensures var r := ParseCidr(address, prefix).value;
      var net, last := Describe(i, r.base, r.count), r.base + r.count - 1;
      net.isLocal <==> || (net.networkIp <= r.base && last <= net.broadcastIp)
                       || (r.base <= net.networkIp && net.broadcastIp <= last)
  {
    var r, ip := ParseCidr(address, prefix).value, i.address.value;
    var net, last := Describe(i, r.base, r.count), r.base + r.count - 1;
    var k := ParsedIsBlock(address, prefix);
    LocalExactly(i, r.base, r.count);
    SubnetIsBlock(ip, mask);
    if k <= 32 - mask {
      MeetIsContainment(r.base, last, k, net.networkIp, net.broadcastIp, 32 - mask);
      BlockOrder(k, 32 - mask);
    } else {
      MeetIsContainment(net.networkIp, net.broadcastIp, 32 - mask, r.base, last, k);
      BlockOrder(32 - mask, k);
    }
  }

  lemma BlockOrder(i: nat, j: nat)
    requires i <= j
    ensures Pow2(i) <= Pow2(j)
  {
    Pow2Splits(i, j);
  }

  // ----- Skipped addresses -----

  /** The guard under which a scan passes over host `h` of its range. */
  predicate LocalSkip(net: NetworkInterface, base: U32, h: nat) {
    net.isLocal && (base + h == net.networkIp || base + h == net.broadcastIp)
  }

  /** For a matched interface the `isLocal` guard is no restriction: the hosts passed over are exactly those whose
      address is the network or the broadcast address of its subnet. */
  lemma LocalSkipExact(i: Interface, base: U32, total: nat, h: nat)
    requires i.address.Some? && i.mask.Some? && Scannable(base, total) && h < total
    ensures var net := Describe(i, base, total);
      LocalSkip(net, base, h) <==> HostAddress(base, h) == net.networkIp || HostAddress(base, h) == net.broadcastIp
  {
    var net := Describe(i, base, total);
    HostIndexOf(base, total, h);
    LocalExactly(i, base, total);
    if base + h == net.networkIp || base + h == net.broadcastIp {
      assert Within(base + h, base, base + total - 1) && Within(base + h, net.networkIp, net.broadcastIp);
    }
  }

  function LocalHosts(net: NetworkInterface, base: U32, total: nat): set<nat> {
    set h: nat | h < total && LocalSkip(net, base, h)
  }

  /** Whatever the interface, at most two hosts are passed over. */
  lemma AtMostTwoLocal(net: NetworkInterface, base: U32, total: nat)
    ensures |LocalHosts(net, base, total)| <= 2
  {
    var two := {net.networkIp - base, net.broadcastIp - base};
    assert forall h :: h in LocalHosts(net, base, total) ==> h in two;
    SubsetSize(LocalHosts(net, base, total), two);
  }

  lemma {:induction false} SubsetSize(a: set<nat>, b: set<int>)
    requires forall h :: h in a ==> h in b
    ensures |a| <= |b|
  {
    if a != {} {
      var h :| h in a;
      SubsetSize(a - {h}, b - {h});
    }
  }
}
