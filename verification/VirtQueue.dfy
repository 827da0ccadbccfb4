/** The split virtqueue of vmcore: u16 ring indices that wrap at 65536, ring slots taken
    modulo a power-of-two queue size, and descriptor chains linked by the guest. */
module VirtQueue {
  import opened Common
  import opened Arith
  import opened Rings

  datatype Desc = Desc(addr: U64, len: U32, flags: U16, next: U16)
  datatype UsedElem = UsedElem(id: U32, len: U32)

  const WRAP: nat := 0x1_0000

  // ---------------------------------------------------------------------------
  // Why the queue size must be a power of two
  // ---------------------------------------------------------------------------

  /** The slot a wrapped index selects is the slot of the unbounded count it stands for. */
  ghost predicate SlotsLineUp(size: nat)
    requires size > 0
  {
    forall n: nat :: SlotOf(n % WRAP, size) == SlotOf(n, size)
  }

  lemma {:induction false} PowersDivide(size: nat, m: nat)
    requires IsPowerOfTwo(size) && IsPowerOfTwo(m) && size <= m
    ensures m % size == 0
  {
    if size > 1 {
      PowersDivide(size / 2, m / 2);
      var k := (m / 2) / (size / 2);
      assert m / 2 == k * (size / 2);
      assert m == k * size;
      DivModUnique(m, size, k, 0);
    }
  }

  lemma OddProduct(k: int, d: int)
    requires k % 2 == 1 && d % 2 == 1
    ensures (k * d) % 2 == 1
  {
    var a, b := k / 2, d / 2;
    assert k * d == (2 * a + 1) * (2 * b + 1) == 2 * (2 * a * b + a + b) + 1;
  }

  /** A divisor of an even number: halve it, or halve the cofactor. */
  lemma HalveDivisor(size: nat, m: nat)
    requires size > 0 && m % 2 == 0 && m % size == 0
    ensures size % 2 == 0 ==> (m / 2) % (size / 2) == 0
    ensures size % 2 == 1 ==> (m / 2) % size == 0
  {
    var k := m / size;
    assert m == k * size;
    if size % 2 == 0 {
      var half := size / 2;
      assert m / 2 == k * half;
      DivModUnique(m / 2, half, k, 0);
    } else {
      if k % 2 == 1 { OddProduct(k, size); }
      var half := k / 2;
      assert m / 2 == half * size;
      DivModUnique(m / 2, size, half, 0);
    }
  }

  lemma {:induction false} DivisorsArePowers(size: nat, m: nat)
    requires size > 0 && IsPowerOfTwo(m) && m % size == 0
    ensures IsPowerOfTwo(size)
    decreases m
  {
    if m > 1 && size > 1 {
      HalveDivisor(size, m);
      DivisorsArePowers(if size % 2 == 0 then size / 2 else size, m / 2);
    }
  }

  lemma WrappedSlot(n: nat, size: nat)
    requires size > 0 && WRAP % size == 0
    ensures SlotOf(n % WRAP, size) == SlotOf(n, size)
  {
    var a, b, r := n / WRAP, WRAP / size, n % WRAP;
    var laps := a * b + r / size;
    calc {
      n;
      a * WRAP + r;
      a * (b * size) + r;
      (a * b) * size + (r / size) * size + r % size;
      laps * size + r % size;
    }
    DivModUnique(n, size, laps, r % size);
    SlotIsMod(n, size);
    SlotIsMod(r, size);
  }

  lemma WrapIsPower()
    ensures IsPowerOfTwo(WRAP)
  {
    assert IsPowerOfTwo(0x1_0000);
  }

  /** The assertion in the constructor is exact: a u16 size keeps wrapped and unbounded
      slots aligned for every count if and only if it is a power of two. */
  lemma AlignedIffPowerOfTwo(size: U16)
    requires size > 0
    ensures SlotsLineUp(size) <==> IsPowerOfTwo(size)
  {
    WrapIsPower();
    if SlotsLineUp(size) {
      assert SlotOf(WRAP % WRAP, size) == SlotOf(WRAP, size);
      SlotIsMod(WRAP, size);
      DivisorsArePowers(size, WRAP);
    }
    if IsPowerOfTwo(size) {
      PowersDivide(size, WRAP);
      forall n: nat ensures SlotOf(n % WRAP, size) == SlotOf(n, size) { WrappedSlot(n, size); }
    }
  }

  // ---------------------------------------------------------------------------
  // The reference queue: unbounded counters, nothing wraps
  // ---------------------------------------------------------------------------

  datatype Fifo = Fifo(published: seq<U16>, consumed: nat, used: seq<UsedElem>)
  {
    predicate Within(size: nat) {
      consumed <= |published| <= consumed + size
    }
    function Backlog(): int { |published| - consumed }
    function Front(): Option<U16> {
      if consumed < |published| then Some(published[consumed]) else None
    }
    function Publish(head: U16): Fifo { this.(published := published + [head]) }
    function Pop(): Fifo {
      if consumed < |published| then this.(consumed := consumed + 1) else this
    }
    function PushUsed(elem: UsedElem): Fifo { this.(used := used + [elem]) }
  }

  const EmptyFifo := Fifo([], 0, [])

  lemma StepWrapped(n: nat)
    ensures (n % WRAP + 1) % WRAP == (n + 1) % WRAP
  {
  }

  /** pending_count subtracts modulo 65536: it is the exact backlog as long as the backlog
      itself fits in a u16, and is wrong as soon as it does not. */
  lemma PendingExactIff(published: nat, consumed: nat)
    requires consumed <= published
    ensures (published % WRAP - consumed % WRAP) % WRAP == published - consumed
            <==> published - consumed < WRAP
  {
    var d := published - consumed;
    var p, c := published / WRAP, consumed / WRAP;
    var diff := published % WRAP - consumed % WRAP;
    assert diff == d - (p - c) * WRAP;
    assert diff % WRAP == d % WRAP;
  }

  // ---------------------------------------------------------------------------
  // Descriptor chains
  // ---------------------------------------------------------------------------

  predicate HasNext(d: Desc) { d.flags % 2 == 1 }

  /** The link path from `idx`: the indices reached by following NEXT links, cut after
      `limit` of them, ending early at a descriptor without NEXT or at a bad index. */
  function LinkPath(table: seq<Desc>, idx: nat, limit: nat): (path: seq<nat>)
    ensures |path| <= limit
    ensures forall k :: 0 <= k < |path| ==> path[k] < |table|
    decreases limit
  {
    if limit == 0 || idx >= |table| then []
    else if !HasNext(table[idx]) then [idx]
    else [idx] + LinkPath(table, table[idx].next, limit - 1)
  }

  function Fetch(table: seq<Desc>, path: seq<nat>): seq<Desc>
    requires forall k :: 0 <= k < |path| ==> path[k] < |table|
  {
    seq(|path|, k requires 0 <= k < |path| => table[path[k]])
  }

  function Walk(table: seq<Desc>, idx: nat, limit: nat): seq<Desc> {
    Fetch(table, LinkPath(table, idx, limit))
  }

  function Chain(table: seq<Desc>, head: nat): seq<Desc> {
    Walk(table, head, |table| + 1)
  }

  lemma WalkUnfolds(done: seq<Desc>, table: seq<Desc>, idx: nat, limit: nat)
    requires limit > 0 && idx < |table|
    ensures var d := table[idx];
            done + Walk(table, idx, limit)
            == (done + [d]) + if HasNext(d) then Walk(table, d.next, limit - 1) else []
  {
    var d := table[idx];
    var rest := if HasNext(d) then LinkPath(table, d.next, limit - 1) else [];
    assert LinkPath(table, idx, limit) == [idx] + rest;
    assert Fetch(table, [idx] + rest) == [d] + Fetch(table, rest);
    assert done + ([d] + Fetch(table, rest)) == (done + [d]) + Fetch(table, rest);
  }

  /** `path` follows the links from `head`, without the cut-off. */
  ghost predicate FollowsLinks(table: seq<Desc>, head: nat, path: seq<nat>) {
    && (forall k :: 0 <= k < |path| ==> path[k] < |table|)
    && (|path| > 0 ==> path[0] == head)
    && (forall k :: 0 <= k < |path| - 1 ==> table[path[k]].flags % 2 == 1 && path[k + 1] == table[path[k]].next)
  }

  /** Nothing can be appended to `path`. */
  ghost predicate Ends(table: seq<Desc>, head: nat, path: seq<nat>)
    requires FollowsLinks(table, head, path)
  {
    if |path| == 0 then head >= |table|
    else
      var last := table[path[|path| - 1]];
      last.flags % 2 == 0 || last.next >= |table|
  }

  ghost predicate Distinct<T>(s: seq<T>) {
    forall i, j :: 0 <= i < j < |s| ==> s[i] != s[j]
  }

  lemma {:induction false} LinkPathFollows(table: seq<Desc>, idx: nat, limit: nat)
    ensures FollowsLinks(table, idx, LinkPath(table, idx, limit))
    ensures |LinkPath(table, idx, limit)| < limit ==> Ends(table, idx, LinkPath(table, idx, limit))
    decreases limit
  {
    if limit > 0 && idx < |table| && HasNext(table[idx]) {
      LinkPathFollows(table, table[idx].next, limit - 1);
      var rest := LinkPath(table, table[idx].next, limit - 1);
      var path := LinkPath(table, idx, limit);
      forall k | 0 <= k < |path| - 1
        ensures table[path[k]].flags % 2 == 1 && path[k + 1] == table[path[k]].next
      {
        if k > 0 { assert path[k] == rest[k - 1] && path[k + 1] == rest[k]; }
      }
    }
  }

  /** From any position, the rest of a path is the path from there. */
  lemma {:induction false} LinkPathSuffix(table: seq<Desc>, idx: nat, limit: nat, i: nat)
    requires i < |LinkPath(table, idx, limit)|
    ensures LinkPath(table, idx, limit)[i..] == LinkPath(table, LinkPath(table, idx, limit)[i], limit - i)
    decreases limit
  {
    if i > 0 {
      LinkPathSuffix(table, table[idx].next, limit - 1, i - 1);
      assert LinkPath(table, idx, limit)[i..] == LinkPath(table, table[idx].next, limit - 1)[i - 1..];
    }
  }

  /** A path that ended by itself does not depend on where it would have been cut. */
  lemma {:induction false} LinkPathStable(table: seq<Desc>, idx: nat, small: nat, large: nat)
    requires |LinkPath(table, idx, small)| < small <= large
    ensures LinkPath(table, idx, large) == LinkPath(table, idx, small)
    decreases small
  {
    if idx < |table| && HasNext(table[idx]) {
      LinkPathStable(table, table[idx].next, small - 1, large - 1);
    }
  }

  /** A path that ended by itself visits no index twice. */
  lemma EndedPathIsDistinct(table: seq<Desc>, idx: nat, limit: nat)
    requires |LinkPath(table, idx, limit)| < limit
    ensures Distinct(LinkPath(table, idx, limit))
  {
    var path := LinkPath(table, idx, limit);
    forall i, j | 0 <= i < j < |path| ensures path[i] != path[j] {
      LinkPathSuffix(table, idx, limit, i);
      LinkPathSuffix(table, idx, limit, j);
      LinkPathStable(table, path[j], limit - j, limit - i);
    }
  }

  /** Pigeonhole: more than `bound` numbers below `bound` cannot be pairwise different. */
  lemma {:induction false} Pigeonhole(s: seq<nat>, bound: nat)
    requires forall k :: 0 <= k < |s| ==> s[k] < bound
    requires Distinct(s)
    ensures |s| <= bound
    decreases bound
  {
    if |s| == 0 {
      return;
    }
    assert s[0] < bound;
    if k :| 0 <= k < |s| && s[k] == bound - 1 {
      var rest := s[..k] + s[k + 1..];
      forall i, j | 0 <= i < j < |rest| ensures rest[i] != rest[j] {
        var i', j' := if i < k then i else i + 1, if j < k then j else j + 1;
        assert rest[i] == s[i'] && rest[j] == s[j'];
      }
      forall i | 0 <= i < |rest| ensures rest[i] < bound - 1 {
        var i' := if i < k then i else i + 1;
        assert rest[i] == s[i'] && s[i'] != s[k];
      }
      Pigeonhole(rest, bound - 1);
    } else {
      Pigeonhole(s, bound - 1);
    }
  }

  lemma FollowsFrom(table: seq<Desc>, head: nat, path: seq<nat>)
    requires FollowsLinks(table, head, path) && |path| > 1
    ensures table[head].flags % 2 == 1 && FollowsLinks(table, table[head].next, path[1..])
  {
    var tail := path[1..];
    assert table[path[0]].flags % 2 == 1 && path[0 + 1] == table[path[0]].next;
    forall k | 0 <= k < |tail| - 1
      ensures table[tail[k]].flags % 2 == 1 && tail[k + 1] == table[tail[k]].next
    {
      assert tail[k] == path[k + 1] && tail[k + 1] == path[k + 2];
      assert table[path[k + 1]].flags % 2 == 1 && path[k + 1 + 1] == table[path[k + 1]].next;
    }
  }

  lemma {:induction false} LongestPrefix(table: seq<Desc>, head: nat, path: seq<nat>, limit: nat)
    requires FollowsLinks(table, head, path) && |path| <= limit
    ensures path <= LinkPath(table, head, limit)
    decreases |path|
  {
    if |path| > 0 {
      assert head == path[0] < |table|;
      if |path| > 1 {
        var tail := path[1..];
        FollowsFrom(table, head, path);
        LongestPrefix(table, table[head].next, tail, limit - 1);
        assert path == [head] + tail;
      }
    }
  }

  /** The walk's cut-off, with no bound on the links the guest may write: it fires exactly
      when following the links from the head comes back to an index already visited, and
      when it does not fire the walk is the whole maximal path, without repetition. */
  lemma CutoffIffRevisit(table: seq<Desc>, head: nat)
    ensures var path := LinkPath(table, head, |table| + 1);
            && FollowsLinks(table, head, path)
            && (|path| == |table| + 1 <==> !Distinct(path))
            && (|path| == |table| + 1 <==> exists p: seq<nat> :: FollowsLinks(table, head, p) && !Distinct(p))
            && (|path| <= |table| ==>
                  && Ends(table, head, path)
                  && forall p: seq<nat> :: FollowsLinks(table, head, p) ==> p <= path)
  {
    var n := |table| + 1;
    var path := LinkPath(table, head, n);
    LinkPathFollows(table, head, n);
    if |path| < n {
      EndedPathIsDistinct(table, head, n);
      forall p: seq<nat> | FollowsLinks(table, head, p) ensures p <= path {
        var m := if |p| <= n then n else |p|;
        LongestPrefix(table, head, p, m);
        LinkPathStable(table, head, n, m);
      }
    } else if Distinct(path) {
      Pigeonhole(path, |table|);
    }
  }

  /** A chain as a driver lays it out: different descriptors, each but the last with bit 0 of
      its flags set, whatever its other bits, and naming the following one; bit 0 of the last
      one's flags is clear. */
  ghost predicate LaidOut(table: seq<Desc>, head: nat, path: seq<nat>) {
    && |path| > 0 && path[0] == head && Distinct(path)
    && (forall k :: 0 <= k < |path| ==> path[k] < |table|)
    && (forall k :: 0 <= k < |path| - 1 ==>
          (exists x: nat :: table[path[k]].flags == 2 * x + 1) && table[path[k]].next == path[k + 1])
    && (exists x: nat :: table[path[|path| - 1]].flags == 2 * x)
  }

  /** The walk finds exactly the descriptors of such a chain, in order. */
  lemma WalkFindsLaidOut(table: seq<Desc>, head: nat, path: seq<nat>)
    requires LaidOut(table, head, path)
    ensures |Chain(table, head)| == |path|
    ensures forall k :: 0 <= k < |path| ==> Chain(table, head)[k] == table[path[k]]
  {
    assert FollowsLinks(table, head, path);
    Pigeonhole(path, |table|);
    PathToTheEnd(table, head, path, |table| + 1);
  }

  /** Whatever chain the driver has laid out at `head`, `found` is its descriptors in order. */
  ghost predicate FindsLaidOut(table: seq<Desc>, head: nat, found: seq<Desc>) {
    forall path: seq<nat> :: LaidOut(table, head, path) ==>
      |found| == |path| && forall k :: 0 <= k < |path| ==> found[k] == table[path[k]]
  }

  lemma ChainFindsLaidOut(table: seq<Desc>, head: nat)
    ensures FindsLaidOut(table, head, Chain(table, head))
  {
    forall path: seq<nat> | LaidOut(table, head, path)
      ensures |Chain(table, head)| == |path|
      ensures forall k :: 0 <= k < |path| ==> Chain(table, head)[k] == table[path[k]]
    {
      WalkFindsLaidOut(table, head, path);
    }
  }

  lemma {:induction false} PathToTheEnd(table: seq<Desc>, head: nat, path: seq<nat>, limit: nat)
    requires FollowsLinks(table, head, path) && 0 < |path| <= limit
    requires table[path[|path| - 1]].flags % 2 == 0
    ensures LinkPath(table, head, limit) == path
    decreases |path|
  {
    if |path| > 1 {
      FollowsFrom(table, head, path);
      PathToTheEnd(table, table[head].next, path[1..], limit - 1);
      assert path == [head] + path[1..];
    }
  }

  // ---------------------------------------------------------------------------
  // The queue object
  // ---------------------------------------------------------------------------

  class SplitVirtqueue {
    const queueSize: U16
    const descTable: array<Desc>
    const availRing: array<U16>
    const usedRing: array<UsedElem>
    var availIdx: U16
    var usedIdx: U16
    var lastAvailIdx: U16

    /** The unbounded queue this object stands for. */
    ghost var fifo: Fifo

    ghost predicate Shape() {
      && IsPowerOfTwo(queueSize)
      && descTable.Length == availRing.Length == usedRing.Length == queueSize
    }

    /** The number of the oldest used element not yet overwritten. */
    ghost function OldestUsed(): nat
      reads this
    {
      if |fifo.used| >= queueSize then |fifo.used| - queueSize else 0
    }

    ghost predicate Valid()
      reads this, availRing, usedRing
    {
      && Shape()
      && fifo.Within(queueSize)
      && availIdx == |fifo.published| % WRAP
      && lastAvailIdx == fifo.consumed % WRAP
      && usedIdx == |fifo.used| % WRAP
      && RingHolds(availRing[..], fifo.published, fifo.consumed)
      && RingHolds(usedRing[..], fifo.used, OldestUsed())
    }

    /** The source asserts that the size is a power of two. */
    constructor (size: U16)
      requires IsPowerOfTwo(size)
      ensures Valid() && queueSize == size && fifo == EmptyFifo
      ensures fresh(descTable) && fresh(availRing) && fresh(usedRing)
      ensures forall k :: 0 <= k < size ==> descTable[k] == Desc(0, 0, 0, 0)
    {
      queueSize := size;
      descTable := new Desc[size](_ => Desc(0, 0, 0, 0));
      availRing := new U16[size](_ => 0);
      usedRing := new UsedElem[size](_ => UsedElem(0, 0));
      availIdx, usedIdx, lastAvailIdx := 0, 0, 0;
      fifo := EmptyFifo;
    }

    lemma Aligned(n: nat)
      requires Shape()
      ensures SlotOf(n % WRAP, queueSize) == SlotOf(n, queueSize)
    {
      AlignedIffPowerOfTwo(queueSize);
    }

    lemma EmptyIffIndicesMeet()
      requires Valid()
      ensures availIdx == lastAvailIdx <==> fifo.Backlog() == 0
    {
      PendingExactIff(|fifo.published|, fifo.consumed);
    }

    /** The driver's side of the available ring (section 2.7.13 of VIRTIO 1.2): write the
        next slot, then step the index. A driver never has more than `queueSize` heads out. */
    method GuestPublish(head: U16)
      requires Valid() && fifo.Backlog() < queueSize
      modifies this`availIdx, this`fifo, availRing
      ensures Valid() && fifo == old(fifo).Publish(head)
    {
      Aligned(|fifo.published|);
      SlotIsMod(availIdx, queueSize);
      RingPush(availRing[..], fifo.published, fifo.consumed, head);
      StepWrapped(|fifo.published|);
      var slot := availIdx % queueSize;
      ghost var ring := availRing[..];
      availRing[slot] := head;
      assert availRing[..] == ring[slot := head];
      availIdx := (availIdx + 1) % WRAP;
      fifo := fifo.Publish(head);
    }

    method HasAvailable() returns (r: bool)
      requires Valid()
      ensures r <==> fifo.Backlog() > 0
    {
      EmptyIffIndicesMeet();
      r := availIdx != lastAvailIdx;
    }

    /** Heads come out in the order they were published, over any number of wraps. */
    method PopAvail() returns (r: Option<U16>)
      requires Valid()
      modifies this`lastAvailIdx, this`fifo
      ensures Valid() && r == old(fifo).Front() && fifo == old(fifo).Pop()
    {
      EmptyIffIndicesMeet();
      if availIdx == lastAvailIdx {
        return None;
      }
      Aligned(fifo.consumed);
      SlotIsMod(lastAvailIdx, queueSize);
      var slot := lastAvailIdx % queueSize;
      assert availRing[slot] == availRing[..][slot];
      r := Some(availRing[slot]);
      StepWrapped(fifo.consumed);
      lastAvailIdx := (lastAvailIdx + 1) % WRAP;
      fifo := fifo.Pop();
    }

    /** The element lands in the slot of the absolute count of used elements. */
    method PushUsed(id: U32, len: U32)
      requires Valid()
      modifies this`usedIdx, this`fifo, usedRing
      ensures Valid() && fifo == old(fifo).PushUsed(UsedElem(id, len))
      ensures usedRing[SlotOf(|old(fifo).used|, queueSize)] == UsedElem(id, len)
    {
      Aligned(|fifo.used|);
      SlotIsMod(usedIdx, queueSize);
      RingPush(usedRing[..], fifo.used, if |fifo.used| >= queueSize then |fifo.used| + 1 - queueSize else 0,
               UsedElem(id, len));
      StepWrapped(|fifo.used|);
      var slot := usedIdx % queueSize;
      ghost var ring := usedRing[..];
      usedRing[slot] := UsedElem(id, len);
      assert usedRing[..] == ring[slot := UsedElem(id, len)];
      usedIdx := (usedIdx + 1) % WRAP;
      fifo := fifo.PushUsed(UsedElem(id, len));
    }

    method PendingCount() returns (n: U16)
      requires Valid()
      ensures n == fifo.Backlog()
    {
      PendingExactIff(|fifo.published|, fifo.consumed);
      n := (availIdx - lastAvailIdx) % WRAP;
    }

    method Reset()
      requires Valid()
      modifies this`availIdx, this`usedIdx, this`lastAvailIdx, this`fifo
      ensures Valid() && fifo == EmptyFifo
    {
      lastAvailIdx, availIdx, usedIdx := 0, 0, 0;
      fifo := EmptyFifo;
    }

    /** Terminates for every descriptor table, cyclic or not, and returns the descriptors of a
        chain laid out by the driver. */
    method WalkChain(head: U16) returns (chain: seq<Desc>)
      requires Shape()
      ensures chain == Chain(descTable[..], head)
      ensures |chain| <= queueSize + 1
      ensures FindsLaidOut(descTable[..], head, chain)
    {
      ghost var table := descTable[..];
      chain := [];
      var idx: U16 := head;
      var visited: nat := 0;
      while true
        invariant visited == |chain| <= queueSize == |table|
        invariant Chain(table, head) == chain + Walk(table, idx, queueSize + 1 - visited)
        decreases queueSize - visited
      {
        if idx >= queueSize {
          break;
        }
        WalkUnfolds(chain, table, idx, queueSize + 1 - visited);
        var desc := descTable[idx];
        chain := chain + [desc];
        visited := visited + 1;
        if visited > queueSize {
          break;
        }
        if !HasNext(desc) {
          break;
        }
        idx := desc.next;
      }
      assert chain == Chain(table, head);
      ChainFindsLaidOut(table, head);
    }

    method Perform(op: Op) returns (output: Output)
      requires Valid() && (op.Publish? ==> fifo.Backlog() < queueSize)
      modifies this, availRing, usedRing
      ensures Valid() && fifo == FifoStep(old(fifo), op) && output == FifoOutput(old(fifo), op)
    {
      output := Silent;
      match op {
        case Publish(head) => GuestPublish(head);
        case Pop => var head := PopAvail(); output := Head(head);
        case Push(id, len) => PushUsed(id, len);
        case Pending => var n := PendingCount(); output := Count(n);
        case Restart => Reset();
      }
    }
  }

  // ---------------------------------------------------------------------------
  // Every run of the queue
  // ---------------------------------------------------------------------------

  datatype Op = Publish(head: U16) | Pop | Push(id: U32, len: U32) | Pending | Restart
  datatype Output = Silent | Head(head: Option<U16>) | Count(n: int)

  function FifoStep(f: Fifo, op: Op): Fifo {
    match op
    case Publish(head) => f.Publish(head)
    case Pop => f.Pop()
    case Push(id, len) => f.PushUsed(UsedElem(id, len))
    case Pending => f
    case Restart => EmptyFifo
  }

  function FifoOutput(f: Fifo, op: Op): Output {
    match op
    case Pop => Head(f.Front())
    case Pending => Count(f.Backlog())
    case _ => Silent
  }

  function FifoAfter(ops: seq<Op>): Fifo {
    if |ops| == 0 then EmptyFifo
    else FifoStep(FifoAfter(ops[..|ops| - 1]), ops[|ops| - 1])
  }

  function FifoOutputs(ops: seq<Op>): (outputs: seq<Output>)
    ensures |outputs| == |ops|
  {
    if |ops| == 0 then []
    else
      var before := ops[..|ops| - 1];
      FifoOutputs(before) + [FifoOutput(FifoAfter(before), ops[|ops| - 1])]
  }

  lemma OneMore(ops: seq<Op>, k: nat)
    requires k < |ops|
    ensures FifoAfter(ops[..k + 1]) == FifoStep(FifoAfter(ops[..k]), ops[k])
    ensures FifoOutputs(ops[..k + 1]) == FifoOutputs(ops[..k]) + [FifoOutput(FifoAfter(ops[..k]), ops[k])]
  {
    assert ops[..k + 1][..k] == ops[..k];
  }

  /** The driver keeps at most `size` heads outstanding at every point of the run. */
  ghost predicate DriverObeysWindow(ops: seq<Op>, size: nat) {
    forall k :: 0 <= k < |ops| && ops[k].Publish? ==> FifoAfter(ops[..k]).Backlog() < size
  }

  /** The wrapping queue answers every run, of any length, as the unbounded one does. */
  method Replay(size: U16, ops: seq<Op>) returns (outputs: seq<Output>)
    requires IsPowerOfTwo(size) && DriverObeysWindow(ops, size)
    ensures outputs == FifoOutputs(ops)
  {
    var queue := new SplitVirtqueue(size);
    outputs := [];
    for k := 0 to |ops|
      invariant fresh(queue) && fresh(queue.availRing) && fresh(queue.usedRing)
      invariant queue.Valid() && queue.queueSize == size
      invariant queue.fifo == FifoAfter(ops[..k])
      invariant outputs == FifoOutputs(ops[..k])
    {
      OneMore(ops, k);
      var output := queue.Perform(ops[k]);
      outputs := outputs + [output];
    }
    assert ops[..|ops|] == ops;
  }

  // ---------------------------------------------------------------------------
  // What the driver and the device see of each other
  // ---------------------------------------------------------------------------

  /** The heads published since the last reset, in order. */
  function PublishedSince(ops: seq<Op>): seq<U16> {
    if |ops| == 0 || ops[|ops| - 1].Restart? then []
    else
      var last := ops[|ops| - 1];
      PublishedSince(ops[..|ops| - 1]) + if last.Publish? then [last.head] else []
  }

  /** The heads the pops since the last reset have returned, in order. */
  function PoppedSince(ops: seq<Op>, outputs: seq<Output>): seq<U16>
    requires |outputs| == |ops|
  {
    if |ops| == 0 || ops[|ops| - 1].Restart? then []
    else
      var last := outputs[|ops| - 1];
      PoppedSince(ops[..|ops| - 1], outputs[..|ops| - 1])
      + if last.Head? && last.head.Some? then [last.head.value] else []
  }

  /** The used elements pushed since the last reset, in order. */
  function UsedSince(ops: seq<Op>): seq<UsedElem> {
    if |ops| == 0 || ops[|ops| - 1].Restart? then []
    else
      var last := ops[|ops| - 1];
      UsedSince(ops[..|ops| - 1]) + if last.Push? then [UsedElem(last.id, last.len)] else []
  }

  lemma {:induction false} FifoTells(ops: seq<Op>)
    ensures var f, popped := FifoAfter(ops), PoppedSince(ops, FifoOutputs(ops));
            f.published == PublishedSince(ops) && f.used == UsedSince(ops)
            && f.consumed == |popped| <= |f.published| && popped == f.published[..|popped|]
  {
    if |ops| > 0 {
      var n := |ops| - 1;
      FifoTells(ops[..n]);
      assert ops[..n + 1] == ops;
      OneMore(ops, n);
      assert FifoOutputs(ops)[..n] == FifoOutputs(ops[..n]);
    }
  }

  /** First published, first popped, over any number of index wraps: what the pops of any run have
      returned is a beginning of what was published, the next pop returns the head after it, and
      nothing only when all are popped; the count is what is left. */
  lemma FirstInFirstOut(ops: seq<Op>)
    ensures var published, popped := PublishedSince(ops), PoppedSince(ops, FifoOutputs(ops));
            && popped <= published
            && FifoOutputs(ops + [Pop])[|ops|]
               == Head(if |popped| < |published| then Some(published[|popped|]) else None)
            && FifoOutputs(ops + [Pending])[|ops|] == Count(|published| - |popped|)
  {
    FifoTells(ops);
    assert (ops + [Pop])[..|ops|] == ops && (ops + [Pending])[..|ops|] == ops;
  }
}
