/** The single-producer single-consumer event ring of vmcore. Every atomic load, slot access
    and atomic store is a step of its own; a schedule is any interleaving of such steps. */
module EventRing {
  import opened Arith
  import opened Rings

  datatype Event = Event(kind: int, vmHandle: int, vcpuId: nat, data: nat, timestampNs: nat)

  const DefaultEvent := Event(1, 0, 0, 0, 0)

  function Stamp(e: Event, nowNs: nat): Event {
    if e.timestampNs == 0 then e.(timestampNs := nowNs) else e
  }

  /** Where the producer thread stands: between calls, inside push, or inside len. */
  datatype Producer =
    | PIdle
    | PHead(event: Event, head: nat)                // head loaded
    | PTail(event: Event, head: nat, tail: nat)     // tail loaded
    | PWritten(event: Event, head: nat)             // slot written, head not yet stored
    | PLen(head: nat)                               // inside len, head loaded

  /** Where the consumer thread stands: between calls, inside pop, or inside len. */
  datatype Consumer =
    | CIdle
    | CTail(tail: nat)
    | CHead(tail: nat, head: nat)
    | CRead(event: Event, tail: nat)
    | CLen(head: nat)

  /** `accepted` and `popped` are histories: the events of successful pushes, in the order
      head was stored, and the events popped, in the order tail was stored. `lens` collects
      every difference computed by a len call. */
  datatype Ring = Ring(
    buffer: seq<Event>, head: nat, tail: nat, producer: Producer, consumer: Consumer,
    accepted: seq<Event>, popped: seq<Event>, lens: seq<int>)

  datatype Step = BeginPush(event: Event, nowNs: nat) | BeginPop | ProducerLen | ConsumerLen
                | ProducerStep | ConsumerStep

  function Capacity(r: Ring): nat { |r.buffer| }

  function Init(capacity: nat): Ring {
    Ring(seq(capacity, _ => DefaultEvent), 0, 0, PIdle, CIdle, [], [], [])
  }

  function ProducerMove(r: Ring): Ring
    requires Capacity(r) > 0
  {
    match r.producer
    case PIdle => r
    case PHead(e, h) => r.(producer := PTail(e, h, r.tail))
    case PTail(e, h, t) =>
      if h - t >= Capacity(r) then r.(producer := PIdle)
      else r.(buffer := r.buffer[SlotOf(h, Capacity(r)) := e], producer := PWritten(e, h))
    case PWritten(e, h) => r.(head := h + 1, producer := PIdle, accepted := r.accepted + [e])
    case PLen(h) => r.(producer := PIdle, lens := r.lens + [h - r.tail])
  }

  function ConsumerMove(r: Ring): Ring
    requires Capacity(r) > 0
  {
    match r.consumer
    case CIdle => r
    case CTail(t) => r.(consumer := CHead(t, r.head))
    case CHead(t, h) =>
      if t >= h then r.(consumer := CIdle)
      else r.(consumer := CRead(r.buffer[SlotOf(t, Capacity(r))], t))
    case CRead(e, t) => r.(tail := t + 1, consumer := CIdle, popped := r.popped + [e])
    case CLen(h) => r.(consumer := CIdle, lens := r.lens + [h - r.tail])
  }

  /** A step that is not enabled leaves the ring as it is. */
  function Move(r: Ring, s: Step): (r': Ring)
    requires Capacity(r) > 0
    ensures Capacity(r') == Capacity(r)
  {
    match s
    case BeginPush(e, now) => if r.producer.PIdle? then r.(producer := PHead(Stamp(e, now), r.head)) else r
    case ProducerLen => if r.producer.PIdle? then r.(producer := PLen(r.head)) else r
    case ProducerStep => ProducerMove(r)
    case BeginPop => if r.consumer.CIdle? then r.(consumer := CTail(r.tail)) else r
    case ConsumerLen => if r.consumer.CIdle? then r.(consumer := CLen(r.head)) else r
    case ConsumerStep => ConsumerMove(r)
  }

  function Execute(r: Ring, schedule: seq<Step>): (r': Ring)
    requires Capacity(r) > 0
    ensures Capacity(r') == Capacity(r)
  {
    if |schedule| == 0 then r
    else Move(Execute(r, schedule[..|schedule| - 1]), schedule[|schedule| - 1])
  }

  function Run(capacity: nat, schedule: seq<Step>): (r: Ring)
    requires capacity > 0
    ensures Capacity(r) == capacity
  {
    Execute(Init(capacity), schedule)
  }

  // ---------------------------------------------------------------------------
  // What every step keeps
  // ---------------------------------------------------------------------------

  /** Accepted events not yet popped are the slots from tail to head. */
  ghost predicate SlotsHold(r: Ring)
    requires Capacity(r) > 0
  {
    && r.tail <= r.head <= r.tail + Capacity(r)
    && |r.accepted| == r.head
    && RingHolds(r.buffer, r.accepted, r.tail)
  }

  ghost predicate PoppedIsPrefix(r: Ring) {
    |r.popped| == r.tail && r.popped <= r.accepted
  }

  /** What the producer remembers is still true: its own head is exact, and the tail it
      read is at most the present one. */
  ghost predicate ProducerKnows(r: Ring)
    requires Capacity(r) > 0
  {
    match r.producer
    case PIdle => true
    case PHead(_, h) => h == r.head
    case PTail(_, h, t) => h == r.head && t <= r.tail
    case PWritten(e, h) =>
      h == r.head && h - r.tail < Capacity(r) && r.buffer[SlotOf(h, Capacity(r))] == e
    case PLen(h) => h == r.head
  }

  ghost predicate ConsumerKnows(r: Ring) {
    match r.consumer
    case CIdle => true
    case CTail(t) => t == r.tail
    case CHead(t, h) => t == r.tail <= h <= r.head
    case CRead(e, t) => t == r.tail < r.head && |r.accepted| == r.head && r.accepted[t] == e
    case CLen(h) => r.tail <= h <= r.head
  }

  ghost predicate LensInRange(r: Ring) {
    forall k :: 0 <= k < |r.lens| ==> 0 <= r.lens[k] <= Capacity(r)
  }

  ghost predicate Inv(r: Ring) {
    && Capacity(r) > 0
    && SlotsHold(r) && PoppedIsPrefix(r) && ProducerKnows(r) && ConsumerKnows(r) && LensInRange(r)
  }

  lemma WriteMissesUnread(r: Ring)
    requires Capacity(r) > 0 && SlotsHold(r) && r.head - r.tail < Capacity(r)
    ensures forall i :: r.tail <= i < r.head ==> SlotOf(i, Capacity(r)) != SlotOf(r.head, Capacity(r))
  {
    forall i | r.tail <= i < r.head ensures SlotOf(i, Capacity(r)) != SlotOf(r.head, Capacity(r)) {
      SlotsDistinct(i, r.head, Capacity(r));
    }
  }

  lemma ProducerKeeps(r: Ring)
    requires Inv(r)
    ensures Inv(ProducerMove(r))
  {
    match r.producer
    case PTail(e, h, t) =>
      if h - t < Capacity(r) { WriteMissesUnread(r); }
    case _ =>
  }

  lemma ConsumerKeeps(r: Ring)
    requires Inv(r)
    ensures Inv(ConsumerMove(r))
  {
    match r.consumer
    case CRead(e, t) => assert r.accepted[..t + 1] == r.accepted[..t] + [e];
    case _ =>
  }

  lemma MoveKeeps(r: Ring, s: Step)
    requires Inv(r)
    ensures Inv(Move(r, s)) && Move(r, s).tail >= r.tail
  {
    match s
    case ProducerStep => ProducerKeeps(r);
    case ConsumerStep => ConsumerKeeps(r);
    case _ =>
  }

  lemma {:induction false} ExecuteKeeps(r: Ring, schedule: seq<Step>)
    requires Inv(r)
    ensures Inv(Execute(r, schedule)) && Execute(r, schedule).tail >= r.tail
  {
    if |schedule| > 0 {
      ExecuteKeeps(r, schedule[..|schedule| - 1]);
      MoveKeeps(Execute(r, schedule[..|schedule| - 1]), schedule[|schedule| - 1]);
    }
  }

  lemma EveryRunKeeps(capacity: nat, schedule: seq<Step>)
    requires capacity > 0
    ensures Inv(Run(capacity, schedule))
  {
    ExecuteKeeps(Init(capacity), schedule);
  }

  // ---------------------------------------------------------------------------
  // The guarantees
  // ---------------------------------------------------------------------------

  /** What is in the ring, read off its slots. */
  function Contents(r: Ring): seq<Event>
    requires 0 < Capacity(r) && r.tail <= r.head
  {
    seq(r.head - r.tail, k requires 0 <= k < r.head - r.tail => r.buffer[SlotOf(r.tail + k, Capacity(r))])
  }

  /** In every interleaving: events come out in the order they were accepted, none lost and
      none repeated; what remains is exactly the slots from tail to head; and every len call
      of either party lies between 0 and the capacity. */
  lemma FifoUnderEveryInterleaving(capacity: nat, schedule: seq<Step>)
    requires capacity > 0
    ensures var r := Run(capacity, schedule);
            && r.tail <= r.head <= r.tail + capacity
            && r.popped + Contents(r) == r.accepted
            && LensInRange(r)
  {
    EveryRunKeeps(capacity, schedule);
    var r := Run(capacity, schedule);
    assert r.accepted == r.accepted[..r.tail] + r.accepted[r.tail..];
    assert r.accepted[r.tail..] == Contents(r);
  }

  /** No slot is written while it is unread, and the producer never writes the slot the
      consumer is about to read. */
  lemma NoSlotWrittenWhileUnread(capacity: nat, schedule: seq<Step>, i: nat)
    requires capacity > 0
    requires var r := Run(capacity, schedule);
             && r.producer.PTail? && r.producer.head - r.producer.tail < capacity
             && r.tail <= i < r.head
    ensures var r := Run(capacity, schedule);
            ProducerMove(r).buffer[SlotOf(i, capacity)] == r.buffer[SlotOf(i, capacity)]
    ensures var r := Run(capacity, schedule);
            r.consumer.CHead? && r.consumer.tail < r.consumer.head ==>
              SlotOf(r.consumer.tail, capacity) != SlotOf(r.producer.head, capacity)
  {
    EveryRunKeeps(capacity, schedule);
    WriteMissesUnread(Run(capacity, schedule));
  }

  /** A push is refused exactly when the ring is full at the moment tail is loaded, and a pop
      finds nothing exactly when the ring is empty at the moment head is loaded. */
  lemma RefusalsAreExact(capacity: nat, schedule: seq<Step>)
    requires capacity > 0
    ensures var r := Run(capacity, schedule);
            r.producer.PHead? ==>
              (ProducerMove(ProducerMove(r)).producer.PIdle? <==> r.head - r.tail == capacity)
    ensures var r := Run(capacity, schedule);
            r.consumer.CTail? ==>
              (ConsumerMove(ConsumerMove(r)).consumer.CIdle? <==> r.head == r.tail)
  {
    EveryRunKeeps(capacity, schedule);
  }

  /** Only a missing timestamp is filled in; nothing else of an event changes. */
  predicate StampedFrom(pushed: Event, nowNs: nat, e: Event) {
    && e.kind == pushed.kind && e.vmHandle == pushed.vmHandle && e.vcpuId == pushed.vcpuId && e.data == pushed.data
    && e.timestampNs == if pushed.timestampNs != 0 then pushed.timestampNs else nowNs
  }

  lemma StampFillsIn(e: Event, nowNs: nat)
    ensures StampedFrom(e, nowNs, Stamp(e, nowNs))
  {
  }

  ghost predicate WasPushed(schedule: seq<Step>, e: Event) {
    exists k :: 0 <= k < |schedule| && schedule[k].BeginPush? && StampedFrom(schedule[k].event, schedule[k].nowNs, e)
  }

  ghost predicate AllWerePushed(r: Ring, schedule: seq<Step>) {
    && (forall i :: 0 <= i < |r.accepted| ==> WasPushed(schedule, r.accepted[i]))
    && (r.producer.PHead? || r.producer.PTail? || r.producer.PWritten? ==> WasPushed(schedule, r.producer.event))
  }

  lemma StillPushed(schedule: seq<Step>, s: Step, e: Event)
    requires WasPushed(schedule, e)
    ensures WasPushed(schedule + [s], e)
  {
    var k :| 0 <= k < |schedule| && schedule[k].BeginPush? && StampedFrom(schedule[k].event, schedule[k].nowNs, e);
    assert (schedule + [s])[k] == schedule[k];
  }

  lemma MoveWasPushed(r: Ring, schedule: seq<Step>, s: Step)
    requires Capacity(r) > 0 && AllWerePushed(r, schedule)
    ensures AllWerePushed(Move(r, s), schedule + [s])
  {
    forall e: Event | WasPushed(schedule, e) ensures WasPushed(schedule + [s], e) { StillPushed(schedule, s, e); }
    if s.BeginPush? {
      StampFillsIn(s.event, s.nowNs);
      assert (schedule + [s])[|schedule|] == s;
      assert WasPushed(schedule + [s], Stamp(s.event, s.nowNs));
    }
  }

  /** In every interleaving, every accepted event, and so every popped one, is one that was pushed,
      with its own timestamp or, if it had none, the time of the push. */
  lemma {:induction false} AcceptedWerePushed(capacity: nat, schedule: seq<Step>)
    requires capacity > 0
    ensures AllWerePushed(Run(capacity, schedule), schedule)
  {
    if |schedule| > 0 {
      var front, s := schedule[..|schedule| - 1], schedule[|schedule| - 1];
      AcceptedWerePushed(capacity, front);
      MoveWasPushed(Run(capacity, front), front, s);
      assert schedule == front + [s];
    }
  }

  /** A push that nothing interrupts does what the object's Push promises. */
  lemma UndisturbedPush(r: Ring, e: Event, nowNs: nat)
    requires Inv(r) && r.producer.PIdle?
    ensures var r' := ProducerMove(ProducerMove(ProducerMove(Move(r, BeginPush(e, nowNs)))));
            && Inv(r') && r'.producer.PIdle?
            && Contents(r') == Contents(r) + if r.head - r.tail < Capacity(r) then [Stamp(e, nowNs)] else []
  {
    var r1 := Move(r, BeginPush(e, nowNs));
    ProducerKeeps(r1);
    ProducerKeeps(ProducerMove(r1));
    ProducerKeeps(ProducerMove(ProducerMove(r1)));
    if r.head - r.tail < Capacity(r) { WriteMissesUnread(r); }
  }

  /** A pop that nothing interrupts takes out the oldest event, or changes nothing when empty. */
  lemma UndisturbedPop(r: Ring)
    requires Inv(r) && r.consumer.CIdle?
    ensures var r' := ConsumerMove(ConsumerMove(ConsumerMove(Move(r, BeginPop))));
            && r'.consumer.CIdle? && r'.head == r.head && r'.producer == r.producer
            && if r.head > r.tail
               then r'.popped == r.popped + [Contents(r)[0]] && r'.tail == r.tail + 1
               else r'.popped == r.popped && r'.tail == r.tail
  {
  }

  /** A len of either party that nothing interrupts is the number of events held. */
  lemma UndisturbedLen(r: Ring)
    requires Inv(r)
    ensures r.producer.PIdle? ==>
              var r' := ProducerMove(Move(r, ProducerLen));
              r'.producer.PIdle? && r'.lens == r.lens + [|Contents(r)|] && r'.head == r.head && r'.tail == r.tail
    ensures r.consumer.CIdle? ==>
              var r' := ConsumerMove(Move(r, ConsumerLen));
              r'.consumer.CIdle? && r'.lens == r.lens + [|Contents(r)|] && r'.head == r.head && r'.tail == r.tail
  {
  }

  /** A party in the middle of a call does not begin another. */
  lemma OneCallAtATime(r: Ring, s: Step)
    requires Capacity(r) > 0
    ensures !r.producer.PIdle? && (s.BeginPush? || s.ProducerLen?) ==> Move(r, s) == r
    ensures !r.consumer.CIdle? && (s.BeginPop? || s.ConsumerLen?) ==> Move(r, s) == r
  {
  }

  // ---------------------------------------------------------------------------
  // Who may call len
  // ---------------------------------------------------------------------------

  lemma {:induction false} Continue(r: Ring, first: seq<Step>, second: seq<Step>)
    requires Capacity(r) > 0
    ensures Execute(r, first + second) == Execute(Execute(r, first), second)
    decreases |second|
  {
    if |second| == 0 {
      assert first + second == first;
    } else {
      var all := first + second;
      assert all[..|all| - 1] == first + second[..|second| - 1];
      Continue(r, first, second[..|second| - 1]);
    }
  }

  lemma LastMove(r: Ring, front: seq<Step>, s: Step)
    requires Capacity(r) > 0
    ensures Execute(r, front + [s]) == Move(Execute(r, front), s)
  {
    assert (front + [s])[..|front|] == front;
  }

  lemma LastOfFour(r: Ring, a: Step, b: Step, c: Step, d: Step)
    requires Capacity(r) > 0
    ensures Execute(r, [a, b, c, d]) == Move(Execute(r, [a, b, c]), d)
  {
    LastMove(r, [a, b, c], d);
    assert [a, b, c] + [d] == [a, b, c, d];
  }

  lemma LastOfThree(r: Ring, a: Step, b: Step, c: Step)
    requires Capacity(r) > 0
    ensures Execute(r, [a, b, c]) == Move(Execute(r, [a, b]), c)
  {
    LastMove(r, [a, b], c);
    assert [a, b] + [c] == [a, b, c];
  }

  lemma FirstTwo(r: Ring, a: Step, b: Step)
    requires Capacity(r) > 0
    ensures Execute(r, [a, b]) == Move(Move(r, a), b)
  {
    LastMove(r, [], a);
    LastMove(r, [a], b);
    assert [] + [a] == [a] && [a] + [b] == [a, b];
  }

  /** The steps of a schedule of four, one after the other. */
  lemma FourMoves(r: Ring, a: Step, b: Step, c: Step, d: Step)
    requires Capacity(r) > 0
    ensures Execute(r, [a, b]) == Move(Move(r, a), b)
    ensures Execute(r, [a, b, c]) == Move(Execute(r, [a, b]), c)
    ensures Execute(r, [a, b, c, d]) == Move(Execute(r, [a, b, c]), d)
  {
    FirstTwo(r, a, b);
    LastOfThree(r, a, b, c);
    LastOfFour(r, a, b, c, d);
  }

  const FinishPush: seq<Step> := [ProducerStep, ProducerStep, ProducerStep, ProducerStep]
  const FinishPop: seq<Step> := [ConsumerStep, ConsumerStep, ConsumerStep, ConsumerStep]
  const WholePush: seq<Step> := [BeginPush(DefaultEvent, 1), ProducerStep, ProducerStep, ProducerStep]
  const WholePop: seq<Step> := [BeginPop, ConsumerStep, ConsumerStep, ConsumerStep]

  lemma ProducerFinishes(r: Ring)
    requires Inv(r)
    ensures Execute(r, FinishPush).producer.PIdle?
  {
    FourMoves(r, ProducerStep, ProducerStep, ProducerStep, ProducerStep);
  }

  lemma ConsumerFinishes(r: Ring)
    requires Inv(r)
    ensures var r' := Execute(r, FinishPop);
            r'.consumer.CIdle? && r'.producer == r.producer
  {
    FourMoves(r, ConsumerStep, ConsumerStep, ConsumerStep, ConsumerStep);
  }

  lemma PushLeavesSome(r: Ring)
    requires Inv(r) && r.producer.PIdle?
    ensures var r' := Execute(r, WholePush);
            r'.consumer == r.consumer && r'.tail == r.tail && r'.head > r'.tail
  {
    FourMoves(r, BeginPush(DefaultEvent, 1), ProducerStep, ProducerStep, ProducerStep);
  }

  lemma PopAdvances(r: Ring)
    requires Capacity(r) > 0 && r.consumer.CIdle? && r.head > r.tail
    ensures Execute(r, WholePop).tail == r.tail + 1
  {
    FourMoves(r, BeginPop, ConsumerStep, ConsumerStep, ConsumerStep);
  }

  const OneMorePop: seq<Step> := FinishPush + FinishPop + WholePush + WholePop

  /** From any state the two parties can go on until one more event has been popped. */
  lemma TailCanAdvance(r: Ring)
    requires Inv(r)
    ensures Inv(Execute(r, OneMorePop)) && Execute(r, OneMorePop).tail > r.tail
  {
    var r1 := Execute(r, FinishPush);
    var r2 := Execute(r1, FinishPop);
    var r3 := Execute(r2, WholePush);
    ExecuteKeeps(r, FinishPush);
    ProducerFinishes(r);
    ExecuteKeeps(r1, FinishPop);
    ConsumerFinishes(r1);
    ExecuteKeeps(r2, WholePush);
    PushLeavesSome(r2);
    PopAdvances(r3);
    Continue(r, FinishPush, FinishPop);
    Continue(r, FinishPush + FinishPop, WholePush);
    Continue(r, FinishPush + FinishPop + WholePush, WholePop);
    ExecuteKeeps(r, OneMorePop);
  }

  lemma {:induction false} TailCanReach(r: Ring, goal: nat) returns (schedule: seq<Step>)
    requires Inv(r)
    ensures Execute(r, schedule).tail >= goal
    decreases goal - r.tail
  {
    if r.tail >= goal {
      schedule := [];
    } else {
      TailCanAdvance(r);
      var rest := TailCanReach(Execute(r, OneMorePop), goal);
      schedule := OneMorePop + rest;
      Continue(r, OneMorePop, rest);
    }
  }

  /** Whoever loads head and later tail to compute a length. */
  datatype Caller = ProducerThread | ConsumerThread | Outsider

  predicate IsProducers(s: Step) { s.BeginPush? || s.ProducerLen? || s.ProducerStep? }

  /** The steps that can come between the caller's two loads: none of its own thread. */
  ghost predicate MayComeBetween(caller: Caller, between: seq<Step>) {
    forall k :: 0 <= k < |between| ==>
      && (caller.ProducerThread? ==> !IsProducers(between[k]))
      && (caller.ConsumerThread? ==> IsProducers(between[k]))
  }

  ghost predicate LenInRange(capacity: nat, first: seq<Step>, between: seq<Step>)
    requires capacity > 0
  {
    0 <= Run(capacity, first).head - Run(capacity, first + between).tail <= capacity
  }

  /** Every length this caller can compute, in any run, is a length. */
  ghost predicate LenIsSafe(capacity: nat, caller: Caller)
    requires capacity > 0
  {
    forall first, between :: MayComeBetween(caller, between) ==> LenInRange(capacity, first, between)
  }

  lemma {:induction false} OtherPartyOnly(r: Ring, between: seq<Step>)
    requires Inv(r)
    ensures MayComeBetween(ProducerThread, between) ==> Execute(r, between).head == r.head
    ensures MayComeBetween(ConsumerThread, between) ==> Execute(r, between).tail == r.tail
  {
    if |between| > 0 {
      OtherPartyOnly(r, between[..|between| - 1]);
    }
  }

  lemma PartyLenInRange(capacity: nat, caller: Caller, first: seq<Step>, between: seq<Step>)
    requires capacity > 0 && caller != Outsider && MayComeBetween(caller, between)
    ensures LenInRange(capacity, first, between)
  {
    EveryRunKeeps(capacity, first);
    EveryRunKeeps(capacity, first + between);
    Continue(Init(capacity), first, between);
    ExecuteKeeps(Run(capacity, first), between);
    OtherPartyOnly(Run(capacity, first), between);
  }

  /** From every reachable state the parties can go on so that a length computed by a third
      thread from its head is negative. */
  lemma OutsiderCanUnderflow(capacity: nat, first: seq<Step>) returns (between: seq<Step>)
    requires capacity > 0
    ensures Run(capacity, first).head - Run(capacity, first + between).tail < 0
  {
    EveryRunKeeps(capacity, first);
    var r := Run(capacity, first);
    between := TailCanReach(r, r.head + 1);
    Continue(Init(capacity), first, between);
  }

  /** len is safe to call exactly from the producer's and the consumer's own threads. */
  lemma LenSafeIffParty(capacity: nat, caller: Caller)
    requires capacity > 0
    ensures LenIsSafe(capacity, caller) <==> caller != Outsider
  {
    if caller == Outsider {
      var between := OutsiderCanUnderflow(capacity, []);
      assert MayComeBetween(caller, between) && !LenInRange(capacity, [], between);
    } else {
      forall first, between | MayComeBetween(caller, between) ensures LenInRange(capacity, first, between) {
        PartyLenInRange(capacity, caller, first, between);
      }
    }
  }

  /** The shortest case: head loaded before a push, tail after the matching pop. */
  lemma ObserverCanUnderflow(capacity: nat)
    requires capacity > 0
    ensures Run(capacity, []).head - Run(capacity, WholePush + WholePop).tail == -1
  {
    var r := Init(capacity);
    var r1 := Execute(r, WholePush);
    EveryRunKeeps(capacity, []);
    PushLeavesSome(r);
    ExecuteKeeps(r, WholePush);
    PopAdvances(r1);
    Continue(r, WholePush, WholePop);
  }

  // ---------------------------------------------------------------------------
  // The ring object, as one thread sees it
  // ---------------------------------------------------------------------------

  /** The smallest power of two that is at least `n`, sought from the power `from` up. */
  function NextPowerOfTwo(n: nat, from: nat): (p: nat)
    requires IsPowerOfTwo(from)
    ensures IsPowerOfTwo(p) && p >= n && p >= from
    ensures p == from || p < 2 * n
    decreases n - from
  {
    if from >= n then from else NextPowerOfTwo(n, 2 * from)
  }

  class EventRingInner {
    const buffer: array<Event>
    var head: nat
    var tail: nat

    ghost predicate Valid()
      reads this
    {
      0 < buffer.Length && tail <= head <= tail + buffer.Length
    }

    ghost function Held(): seq<Event>
      requires Valid()
      reads this, buffer
    {
      seq(head - tail, k requires 0 <= k < head - tail reads this, buffer =>
        buffer[SlotOf(tail + k, buffer.Length)])
    }

    constructor (capacity: nat)
      ensures Valid() && Held() == [] && fresh(buffer)
      ensures IsPowerOfTwo(buffer.Length)
      ensures capacity <= buffer.Length && (if capacity <= 1 then buffer.Length == 1 else buffer.Length < 2 * capacity)
    {
      buffer := new Event[NextPowerOfTwo(capacity, 1)](_ => DefaultEvent);
      head, tail := 0, 0;
    }

    method Push(event: Event, nowNs: nat) returns (ok: bool)
      requires Valid()
      modifies this`head, buffer
      ensures Valid()
      ensures ok <==> |old(Held())| < buffer.Length
      ensures Held() == if ok then old(Held()) + [Stamp(event, nowNs)] else old(Held())
    {
      if head - tail >= buffer.Length {
        return false;
      }
      var e := if event.timestampNs == 0 then event.(timestampNs := nowNs) else event;
      SlotIsMod(head, buffer.Length);
      forall i | tail <= i < head ensures SlotOf(i, buffer.Length) != SlotOf(head, buffer.Length) {
        SlotsDistinct(i, head, buffer.Length);
      }
      buffer[head % buffer.Length] := e;
      head := head + 1;
      ok := true;
    }

    method Pop() returns (found: bool, event: Event)
      requires Valid()
      modifies this`tail
      ensures Valid()
      ensures found <==> |old(Held())| > 0
      ensures found ==> [event] + Held() == old(Held())
      ensures !found ==> Held() == old(Held())
    {
      if tail >= head {
        return false, DefaultEvent;
      }
      SlotIsMod(tail, buffer.Length);
      event := buffer[tail % buffer.Length];
      tail := tail + 1;
      found := true;
    }

    method Len() returns (n: nat)
      requires Valid()
      ensures n == |Held()| <= buffer.Length
    {
      n := head - tail;
    }
  }
}
