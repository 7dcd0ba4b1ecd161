/** Sequence numbers: 16 bits wide, never 0. */
module Sequences {
  import opened Icmp

  /** The number handed out, and the next one to hand out. */
  function Allocate(next: U16): (U16, U16) {
    var candidate: U16 := if next == 0 then 1 else next;
    var following := (candidate + 1) % 0x1_0000;
    (candidate, if following == 0 then 1 else following)
  }

  /** The number of allocation `k`, counting from 0. */
  function SeqAt(k: nat): U16 {
    if k < 65535 then k + 1 else SeqAt(k - 65535)
  }

  lemma {:induction false} SeqAtCycle(k: nat)
    ensures SeqAt(k) == k % 65535 + 1
  {
    if k >= 65535 {
      SeqAtCycle(k - 65535);
    }
  }

  /** Started at 1, the allocations are 1 to 65535 over and over: never 0, and any 65535 in a row all differ. */
  lemma AllocationOrder(k: nat, j: nat)
    ensures Allocate(SeqAt(k)) == (SeqAt(k), SeqAt(k + 1))
    ensures SeqAt(0) == 1 && SeqAt(k) == k % 65535 + 1 != 0
    ensures k < j < k + 65535 ==> SeqAt(k) != SeqAt(j)
  {
    SeqAtCycle(k);
    SeqAtCycle(k + 1);
    SeqAtCycle(j);
  }

  /** Slot `s` carries the number allocated for a launch of its host. */
  ghost predicate Numbered(launches: seq<nat>, h: nat, seqNo: U16) {
    exists k :: 0 <= k < |launches| && launches[k] == h && SeqAt(k) == seqNo
  }

  lemma StillNumbered(launches: seq<nat>, more: nat, h: nat, seqNo: U16)
    requires Numbered(launches, h, seqNo)
    ensures Numbered(launches + [more], h, seqNo)
  {
    var k :| 0 <= k < |launches| && launches[k] == h && SeqAt(k) == seqNo;
    assert (launches + [more])[k] == h;
  }

  /** In a run of at most 65535 launches, the numbers of two hosts differ. */
  lemma NumbersDiffer(launches: seq<nat>, h: nat, seqNo: U16, h': nat, seqNo': U16)
    requires |launches| <= 65535 && h != h'
    requires Numbered(launches, h, seqNo) && Numbered(launches, h', seqNo')
    ensures seqNo != seqNo'
  {
    var k :| 0 <= k < |launches| && launches[k] == h && SeqAt(k) == seqNo;
    var j :| 0 <= j < |launches| && launches[j] == h' && SeqAt(j) == seqNo';
    AllocationOrder(k, j);
    AllocationOrder(j, k);
  }
}
