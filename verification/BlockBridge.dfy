/** The bridge between the virtqueue and the I/O engine, as a function of its whole state:
    what one processing call does, and what every run of calls keeps. */
module BlockBridge {
  import opened Common
  import opened VirtQueue
  import opened IoEngine
  import opened BlockRequest

  datatype Request = Request(userData: nat, head: U16, buffer: seq<U8>, totalLen: U32)

  /** `issued` and `retired` are histories: every request ever put in flight, and every
      request ever answered from a completion. */
  datatype Bridge = Bridge(
    fifo: Fifo, inflight: seq<Request>, nextUserData: nat, kernel: Kernel,
    issued: seq<Request>, retired: seq<Request>)
  {
    function Answer(head: U16, len: U32): Bridge {
      this.(fifo := fifo.PushUsed(UsedElem(head, len)))
    }
  }

  const Fresh := Bridge(EmptyFifo, [], 1, Kernel(multiset{}, [], []), [], [])

  /** The environment of one call: the kernel's verdict on each submission, and what the
      wait sees (`None` when the wait itself fails). */
  datatype Env = Env(verdict: nat -> Verdict, wait: Option<seq<Completion>>)

  // ---------------------------------------------------------------------------
  // Phase 1: pop, plan, submit
  // ---------------------------------------------------------------------------

  /** One popped head: an empty chain is the only one that takes no id. */
  function Dispatch(b: Bridge, head: U16, empty: bool, plan: Plan, env: Env): Bridge {
    var id := b.nextUserData;
    var b' := if empty then b else b.(nextUserData := id + 1);
    match plan
    case Reply(len) => b'.Answer(head, len)
    case Panic => b'
    case Submit(op, buffer, total) =>
      match env.verdict(id)
      case RingFull => b'.Answer(head, 1)
      case SubmitFails => b'.(kernel := b.kernel.Push(Sqe(op, id))).Answer(head, 1)
      case Accepted =>
        var r := Request(id, head, buffer, total);
        b'.(kernel := b.kernel.Push(Sqe(op, id)), inflight := b.inflight + [r], issued := b.issued + [r])
  }

  predicate PanicsOn(table: seq<Desc>, dev: Device, head: U16) {
    PlanFor(Chain(table, head), dev).Panic?
  }

  function Next(b: Bridge, table: seq<Desc>, dev: Device, env: Env): (b': Bridge)
    requires b.fifo.Backlog() > 0
    ensures b'.fifo.published == b.fifo.published && b'.fifo.consumed == b.fifo.consumed + 1
  {
    var head := b.fifo.published[b.fifo.consumed];
    var chain := Chain(table, head);
    Dispatch(b.(fifo := b.fifo.Pop()), head, |chain| == 0, PlanFor(chain, dev), env)
  }

  /** The head whose processing panicked, if one did: the call is cut short there. */
  datatype Phase1 = Phase1(bridge: Bridge, panicked: Option<U16>)

  function SubmitAll(b: Bridge, table: seq<Desc>, dev: Device, env: Env): Phase1
    decreases b.fifo.Backlog()
  {
    if b.fifo.Backlog() <= 0 then Phase1(b, None)
    else
      var head := b.fifo.published[b.fifo.consumed];
      if PanicsOn(table, dev, head) then Phase1(Next(b, table, dev, env), Some(head))
      else SubmitAll(Next(b, table, dev, env), table, dev, env)
  }

  // ---------------------------------------------------------------------------
  // Phase 2: match completions with requests in flight
  // ---------------------------------------------------------------------------

  function Position(rs: seq<Request>, id: nat): (p: Option<nat>)
    ensures p.Some? ==> p.value < |rs| && rs[p.value].userData == id
    ensures p.Some? ==> forall k :: 0 <= k < p.value ==> rs[k].userData != id
    ensures p.None? ==> forall k :: 0 <= k < |rs| ==> rs[k].userData != id
  {
    if |rs| == 0 then None
    else if rs[0].userData == id then Some(0)
    else
      match Position(rs[1..], id)
      case None => None
      case Some(k) => Some(k + 1)
  }

  function Remove<T>(s: seq<T>, p: nat): seq<T>
    requires p < |s|
  {
    s[..p] + s[p + 1..]
  }

  function UsedLen(r: Request, c: Completion): U32 {
    if c.result >= 0 then r.totalLen else 0
  }

  function RetireOne(b: Bridge, c: Completion): Bridge {
    match Position(b.inflight, c.userData)
    case None => b
    case Some(p) =>
      var r := b.inflight[p];
      b.(inflight := Remove(b.inflight, p), retired := b.retired + [r]).Answer(r.head, UsedLen(r, c))
  }

  function Retire(b: Bridge, cs: seq<Completion>): Bridge {
    if |cs| == 0 then b else RetireOne(Retire(b, cs[..|cs| - 1]), cs[|cs| - 1])
  }

  // ---------------------------------------------------------------------------
  // One call
  // ---------------------------------------------------------------------------

  function WaitAndRetire(b: Bridge, arrivals: seq<Completion>): Bridge {
    var done := b.kernel.Finish(arrivals);
    var room := |b.inflight|;
    Retire(b.(kernel := done.(cq := LeftInQueue(done.cq, room))), Taken(done.cq, room))
  }

  function Process(b: Bridge, table: seq<Desc>, dev: Device, env: Env): Phase1 {
    var p := SubmitAll(b, table, dev, env);
    if p.panicked.Some? || |p.bridge.inflight| == 0 || env.wait.None? then p
    else Phase1(WaitAndRetire(p.bridge, env.wait.value), None)
  }

  /** The kernel only finishes what it runs. */
  ghost predicate Legal(b: Bridge, table: seq<Desc>, dev: Device, env: Env) {
    var p := SubmitAll(b, table, dev, env);
    p.panicked.None? && |p.bridge.inflight| > 0 && env.wait.Some? ==>
      p.bridge.kernel.CanFinish(env.wait.value)
  }

  // ---------------------------------------------------------------------------
  // Every run: the guest publishes heads and rewrites its table between calls
  // ---------------------------------------------------------------------------

  datatype Call = Call(heads: seq<U16>, table: seq<Desc>, env: Env)

  function WithHeads(b: Bridge, heads: seq<U16>): Bridge {
    b.(fifo := b.fifo.(published := b.fifo.published + heads))
  }

  function CallOnce(b: Bridge, c: Call, dev: Device): Phase1 {
    Process(WithHeads(b, c.heads), c.table, dev, c.env)
  }

  function Run(b: Bridge, calls: seq<Call>, dev: Device): Bridge {
    if |calls| == 0 then b
    else CallOnce(Run(b, calls[..|calls| - 1], dev), calls[|calls| - 1], dev).bridge
  }

  /** The heads whose processing panicked, over a whole run. */
  function PanickedHeads(b: Bridge, calls: seq<Call>, dev: Device): seq<U16> {
    if |calls| == 0 then []
    else
      var before := calls[..|calls| - 1];
      var last := CallOnce(Run(b, before, dev), calls[|calls| - 1], dev).panicked;
      PanickedHeads(b, before, dev) + if last.Some? then [last.value] else []
  }

  ghost predicate LegalCall(b: Bridge, c: Call, dev: Device) {
    Legal(WithHeads(b, c.heads), c.table, dev, c.env)
  }

  ghost predicate LegalRun(b: Bridge, calls: seq<Call>, dev: Device) {
    forall k :: 0 <= k < |calls| ==> LegalCall(Run(b, calls[..k], dev), calls[k], dev)
  }

  lemma LegalBefore(b: Bridge, calls: seq<Call>, dev: Device)
    requires LegalRun(b, calls, dev) && |calls| > 0
    ensures LegalRun(b, calls[..|calls| - 1], dev)
    ensures LegalCall(Run(b, calls[..|calls| - 1], dev), calls[|calls| - 1], dev)
  {
    var before := calls[..|calls| - 1];
    assert forall k :: 0 <= k < |before| ==> before[..k] == calls[..k];
  }

  lemma OneCall(b: Bridge, c: Call, dev: Device)
    ensures Run(b, [c], dev) == CallOnce(b, c, dev).bridge
    ensures LegalRun(b, [c], dev) <==> LegalCall(b, c, dev)
  {
    assert [c][..0] == [];
  }

  // ---------------------------------------------------------------------------
  // Conservation of heads, with no assumption on the kernel
  // ---------------------------------------------------------------------------

  function UsedHeads(used: seq<UsedElem>): seq<int> {
    seq(|used|, k requires 0 <= k < |used| => used[k].id)
  }

  function Heads(rs: seq<Request>): seq<int> {
    seq(|rs|, k requires 0 <= k < |rs| => rs[k].head as int)
  }

  function Popped(f: Fifo): seq<int>
    requires f.consumed <= |f.published|
  {
    seq(f.consumed, k requires 0 <= k < f.consumed => f.published[k] as int)
  }

  /** Every popped head is answered once, in flight once, or was lost to a panic; and every
      issued request is retired or in flight. */
  ghost predicate Balanced(b: Bridge, lost: multiset<int>) {
    && b.fifo.consumed <= |b.fifo.published|
    && multiset(Popped(b.fifo)) == multiset(UsedHeads(b.fifo.used)) + multiset(Heads(b.inflight)) + lost
    && multiset(b.issued) == multiset(b.retired) + multiset(b.inflight)
  }

  lemma AnswerHeads(used: seq<UsedElem>, e: UsedElem)
    ensures UsedHeads(used + [e]) == UsedHeads(used) + [e.id]
  {
  }

  lemma AppendHeads(rs: seq<Request>, r: Request)
    ensures Heads(rs + [r]) == Heads(rs) + [r.head]
  {
  }

  lemma RemoveHeads(rs: seq<Request>, p: nat)
    requires p < |rs|
    ensures multiset(Heads(rs)) == multiset(Heads(Remove(rs, p))) + multiset{rs[p].head as int}
    ensures multiset(rs) == multiset(Remove(rs, p)) + multiset{rs[p]}
  {
    assert rs == rs[..p] + [rs[p]] + rs[p + 1..];
    assert Heads(rs) == Heads(rs[..p]) + [rs[p].head] + Heads(rs[p + 1..]);
    assert Heads(Remove(rs, p)) == Heads(rs[..p]) + Heads(rs[p + 1..]);
  }

  lemma PopHeads(f: Fifo)
    requires f.consumed < |f.published|
    ensures Popped(f.Pop()) == Popped(f) + [f.published[f.consumed]]
  {
  }

  lemma PopBalances(b: Bridge, lost: multiset<int>)
    requires Balanced(b, lost) && b.fifo.Backlog() > 0
    ensures var head := b.fifo.published[b.fifo.consumed];
            Balanced(b.(fifo := b.fifo.Pop()), lost + multiset{head as int})
  {
    PopHeads(b.fifo);
  }

  lemma AnswerBalances(b: Bridge, head: U16, len: U32, lost: multiset<int>)
    requires Balanced(b, lost + multiset{head as int})
    ensures Balanced(b.Answer(head, len), lost)
  {
    AnswerHeads(b.fifo.used, UsedElem(head, len));
  }

  lemma IssueBalances(b: Bridge, r: Request, lost: multiset<int>)
    requires Balanced(b, lost + multiset{r.head as int})
    ensures Balanced(b.(inflight := b.inflight + [r], issued := b.issued + [r]), lost)
  {
    AppendHeads(b.inflight, r);
  }

  lemma DispatchBalances(b: Bridge, head: U16, empty: bool, plan: Plan, env: Env, lost: multiset<int>)
    requires Balanced(b, lost + multiset{head as int})
    ensures Balanced(Dispatch(b, head, empty, plan, env),
                     if plan.Panic? then lost + multiset{head as int} else lost)
  {
    AnswerBalances(b, head, if plan.Reply? then plan.len else 1, lost);
    if plan.Submit? {
      IssueBalances(b, Request(b.nextUserData, head, plan.buffer, plan.total), lost);
    }
  }

  function LostWith(lost: multiset<int>, head: Option<U16>): multiset<int> {
    if head.Some? then lost + multiset{head.value as int} else lost
  }

  lemma {:induction false} SubmitAllBalances(b: Bridge, table: seq<Desc>, dev: Device, env: Env, lost: multiset<int>)
    requires Balanced(b, lost)
    ensures var p := SubmitAll(b, table, dev, env);
            Balanced(p.bridge, LostWith(lost, p.panicked))
    decreases b.fifo.Backlog()
  {
    if b.fifo.Backlog() > 0 {
      var head := b.fifo.published[b.fifo.consumed];
      var chain := Chain(table, head);
      var plan := PlanFor(chain, dev);
      PopBalances(b, lost);
      DispatchBalances(b.(fifo := b.fifo.Pop()), head, |chain| == 0, plan, env, lost);
      if !plan.Panic? {
        SubmitAllBalances(Next(b, table, dev, env), table, dev, env, lost);
      }
    }
  }

  lemma RetireOneBalances(b: Bridge, c: Completion, lost: multiset<int>)
    requires Balanced(b, lost)
    ensures Balanced(RetireOne(b, c), lost)
  {
    match Position(b.inflight, c.userData)
    case None =>
    case Some(p) =>
      var r := b.inflight[p];
      RemoveHeads(b.inflight, p);
      AnswerHeads(b.fifo.used, UsedElem(r.head, UsedLen(r, c)));
  }

  lemma {:induction false} RetireBalances(b: Bridge, cs: seq<Completion>, lost: multiset<int>)
    requires Balanced(b, lost)
    ensures Balanced(Retire(b, cs), lost)
  {
    if |cs| > 0 {
      RetireBalances(b, cs[..|cs| - 1], lost);
      RetireOneBalances(Retire(b, cs[..|cs| - 1]), cs[|cs| - 1], lost);
    }
  }

  lemma ProcessBalances(b: Bridge, table: seq<Desc>, dev: Device, env: Env, lost: multiset<int>)
    requires Balanced(b, lost)
    ensures var p := Process(b, table, dev, env);
            Balanced(p.bridge, LostWith(lost, p.panicked))
  {
    SubmitAllBalances(b, table, dev, env, lost);
    var p := SubmitAll(b, table, dev, env);
    if p.panicked.None? && |p.bridge.inflight| > 0 && env.wait.Some? {
      var done := p.bridge.kernel.Finish(env.wait.value);
      var room := |p.bridge.inflight|;
      var b' := p.bridge.(kernel := done.(cq := LeftInQueue(done.cq, room)));
      RetireBalances(b', Taken(done.cq, room), lost);
    }
  }

  function Widen(heads: seq<U16>): seq<int> {
    seq(|heads|, k requires 0 <= k < |heads| => heads[k] as int)
  }

  lemma MoreHeadsBalance(b: Bridge, heads: seq<U16>, lost: multiset<int>)
    requires Balanced(b, lost)
    ensures Balanced(WithHeads(b, heads), lost)
  {
    assert Popped(WithHeads(b, heads).fifo) == Popped(b.fifo);
  }

  lemma LostOneMore(lost: seq<U16>, head: Option<U16>)
    ensures multiset(Widen(lost + if head.Some? then [head.value] else []))
            == LostWith(multiset(Widen(lost)), head)
  {
    if head.Some? {
      assert Widen(lost + [head.value]) == Widen(lost) + [head.value];
    } else {
      assert lost + [] == lost;
    }
  }

  /** Conservation: after any run at all, whatever the guest and the kernel did, the popped
      heads are the answered ones, the ones in flight, and the ones lost to a panic. */
  lemma {:induction false} HeadsAreConserved(calls: seq<Call>, dev: Device)
    ensures Balanced(Run(Fresh, calls, dev), multiset(Widen(PanickedHeads(Fresh, calls, dev))))
  {
    if |calls| > 0 {
      var before, c := calls[..|calls| - 1], calls[|calls| - 1];
      HeadsAreConserved(before, dev);
      var b := Run(Fresh, before, dev);
      var lost := PanickedHeads(Fresh, before, dev);
      MoreHeadsBalance(b, c.heads, multiset(Widen(lost)));
      ProcessBalances(WithHeads(b, c.heads), c.table, dev, c.env, multiset(Widen(lost)));
      LostOneMore(lost, CallOnce(b, c, dev).panicked);
    }
  }

  lemma NoPanicNothingLost(calls: seq<Call>, dev: Device)
    ensures Balanced(Run(Fresh, calls, dev), multiset{}) <==> PanickedHeads(Fresh, calls, dev) == []
  {
    HeadsAreConserved(calls, dev);
    var b, lost := Run(Fresh, calls, dev), multiset(Widen(PanickedHeads(Fresh, calls, dev)));
    var kept := multiset(UsedHeads(b.fifo.used)) + multiset(Heads(b.inflight));
    if kept + lost == kept + multiset{} {
      assert |kept + lost| == |kept| + |lost|;
    }
  }

  lemma {:induction false} SubmitAllPanicsIff(b: Bridge, table: seq<Desc>, dev: Device, env: Env)
    requires b.fifo.consumed <= |b.fifo.published|
    ensures SubmitAll(b, table, dev, env).panicked.Some? <==>
              exists head :: head in b.fifo.published[b.fifo.consumed..] && PanicsOn(table, dev, head)
    decreases b.fifo.Backlog()
  {
    if b.fifo.Backlog() > 0 {
      var head := b.fifo.published[b.fifo.consumed];
      var rest := b.fifo.published[b.fifo.consumed + 1..];
      assert b.fifo.published[b.fifo.consumed..] == [head] + rest;
      if !PanicsOn(table, dev, head) {
        SubmitAllPanicsIff(Next(b, table, dev, env), table, dev, env);
      }
    }
  }

  /** A call panics exactly when one of the heads waiting for it has data lengths that panic
      (see PanicIff), which the guest can read off its own table beforehand. */
  lemma CallPanicsIff(b: Bridge, table: seq<Desc>, dev: Device, env: Env)
    requires b.fifo.consumed <= |b.fifo.published|
    ensures Process(b, table, dev, env).panicked.Some? <==>
              exists head :: head in b.fifo.published[b.fifo.consumed..] && PanicsOn(table, dev, head)
  {
    SubmitAllPanicsIff(b, table, dev, env);
  }

  lemma {:induction false} SubmitAllEmpties(b: Bridge, table: seq<Desc>, dev: Device, env: Env)
    requires b.fifo.Backlog() >= 0 && SubmitAll(b, table, dev, env).panicked.None?
    ensures SubmitAll(b, table, dev, env).bridge.fifo.Backlog() == 0
    decreases b.fifo.Backlog()
  {
    if b.fifo.Backlog() > 0 { SubmitAllEmpties(Next(b, table, dev, env), table, dev, env); }
  }

  lemma ProcessEmpties(b: Bridge, table: seq<Desc>, dev: Device, env: Env)
    requires b.fifo.Backlog() >= 0 && Process(b, table, dev, env).panicked.None?
    ensures Process(b, table, dev, env).bridge.fifo.Backlog() == 0
  {
    SubmitAllEmpties(b, table, dev, env);
    var p := SubmitAll(b, table, dev, env).bridge;
    if |p.inflight| > 0 && env.wait.Some? {
      var done := p.kernel.Finish(env.wait.value);
      var room := |p.inflight|;
      RetireKeepsKernel(p.(kernel := done.(cq := LeftInQueue(done.cq, room))), Taken(done.cq, room));
    }
  }

  /** Some head of the call is oversized in the table it is published with. */
  ghost predicate HasOversized(c: Call, dev: Device) {
    exists head :: head in c.heads && Oversized(Chain(c.table, head), dev)
  }

  ghost predicate SomeOversized(calls: seq<Call>, dev: Device) {
    exists k :: 0 <= k < |calls| && HasOversized(calls[k], dev)
  }

  lemma LastOversized(calls: seq<Call>, dev: Device)
    requires |calls| > 0
    ensures SomeOversized(calls, dev) <==>
              SomeOversized(calls[..|calls| - 1], dev) || HasOversized(calls[|calls| - 1], dev)
  {
    var before := calls[..|calls| - 1];
    assert forall k :: 0 <= k < |before| ==> before[k] == calls[k];
  }

  lemma {:induction false} RunPanicsIff(calls: seq<Call>, dev: Device)
    ensures PanickedHeads(Fresh, calls, dev) == [] <==> !SomeOversized(calls, dev)
    ensures PanickedHeads(Fresh, calls, dev) == [] ==> Run(Fresh, calls, dev).fifo.Backlog() == 0
  {
    if |calls| > 0 {
      var before, c := calls[..|calls| - 1], calls[|calls| - 1];
      RunPanicsIff(before, dev);
      LastOversized(calls, dev);
      if PanickedHeads(Fresh, before, dev) == [] {
        var b := WithHeads(Run(Fresh, before, dev), c.heads);
        assert b.fifo.published[b.fifo.consumed..] == c.heads;
        CallPanicsIff(b, c.table, dev, c.env);
        forall head: U16 ensures PanicsOn(c.table, dev, head) <==> Oversized(Chain(c.table, head), dev) {
          PanicIff(Chain(c.table, head), dev);
        }
        if CallOnce(Run(Fresh, before, dev), c, dev).panicked.None? {
          ProcessEmpties(b, c.table, dev, c.env);
        }
      }
    }
  }

  /** Nothing is lost in a run exactly when no head of it is oversized in the table it is
      published with: something the guest can read off beforehand, whatever the kernel does. */
  lemma NothingLostIff(calls: seq<Call>, dev: Device)
    ensures Balanced(Run(Fresh, calls, dev), multiset{}) <==> !SomeOversized(calls, dev)
  {
    NoPanicNothingLost(calls, dev);
    RunPanicsIff(calls, dev);
  }

  // ---------------------------------------------------------------------------
  // Every submitted operation stays inside the device
  // ---------------------------------------------------------------------------

  ghost predicate AllInside(k: Kernel, dev: Device) {
    forall i :: 0 <= i < |k.log| ==> InsideDevice(k.log[i].op, dev)
  }

  lemma {:induction false} SubmitAllInside(b: Bridge, table: seq<Desc>, dev: Device, env: Env)
    requires AllInside(b.kernel, dev)
    ensures AllInside(SubmitAll(b, table, dev, env).bridge.kernel, dev)
    decreases b.fifo.Backlog()
  {
    if b.fifo.Backlog() > 0 {
      var head := b.fifo.published[b.fifo.consumed];
      var chain := Chain(table, head);
      if PlanFor(chain, dev).Submit? { SubmittedInside(chain, dev); }
      if !PlanFor(chain, dev).Panic? {
        SubmitAllInside(Next(b, table, dev, env), table, dev, env);
      }
    }
  }

  lemma {:induction false} RetireKeepsKernel(b: Bridge, cs: seq<Completion>)
    ensures Retire(b, cs).kernel == b.kernel
    ensures Retire(b, cs).issued == b.issued
    ensures Retire(b, cs).nextUserData == b.nextUserData
    ensures Retire(b, cs).fifo.(used := b.fifo.used) == b.fifo
  {
    if |cs| > 0 { RetireKeepsKernel(b, cs[..|cs| - 1]); }
  }

  lemma {:induction false} EveryOperationInside(calls: seq<Call>, dev: Device)
    ensures AllInside(Run(Fresh, calls, dev).kernel, dev)
  {
    if |calls| > 0 {
      var before, c := calls[..|calls| - 1], calls[|calls| - 1];
      EveryOperationInside(before, dev);
      var b := WithHeads(Run(Fresh, before, dev), c.heads);
      SubmitAllInside(b, c.table, dev, c.env);
      var p := SubmitAll(b, c.table, dev, c.env).bridge;
      if c.env.wait.Some? {
        var done := p.kernel.Finish(c.env.wait.value);
        var room := |p.inflight|;
        RetireKeepsKernel(p.(kernel := done.(cq := LeftInQueue(done.cq, room))), Taken(done.cq, room));
      }
    }
  }

  // ---------------------------------------------------------------------------
  // Exactly-once retirement
  // ---------------------------------------------------------------------------

  function RequestIds(rs: seq<Request>): (ids: seq<nat>)
    ensures |ids| == |rs|
  {
    seq(|rs|, k requires 0 <= k < |rs| => rs[k].userData)
  }

  ghost predicate Increasing(rs: seq<Request>, bound: nat) {
    && (forall i, j :: 0 <= i < j < |rs| ==> rs[i].userData < rs[j].userData)
    && (forall i :: 0 <= i < |rs| ==> rs[i].userData < bound)
  }

  /** The kernel and the in-flight list hold the same ids, each once. */
  ghost predicate Tracked(b: Bridge) {
    && Increasing(b.inflight, b.nextUserData)
    && Increasing(b.issued, b.nextUserData)
    && b.kernel.running + multiset(Ids(b.kernel.cq)) == multiset(RequestIds(b.inflight))
  }

  /** The kernel keeps the entry of this plan although its submit fails. */
  predicate FailsOn(b: Bridge, plan: Plan, env: Env) {
    plan.Submit? && env.verdict(b.nextUserData) == SubmitFails
  }

  /** Some submission of this phase is pushed and its submit fails. */
  predicate FailsIn(b: Bridge, table: seq<Desc>, dev: Device, env: Env)
    decreases b.fifo.Backlog()
  {
    b.fifo.Backlog() > 0
    && var plan := PlanFor(Chain(table, b.fifo.published[b.fifo.consumed]), dev);
    FailsOn(b, plan, env) || (!plan.Panic? && FailsIn(Next(b, table, dev, env), table, dev, env))
  }

  lemma AppendIds(rs: seq<Request>, r: Request)
    ensures RequestIds(rs + [r]) == RequestIds(rs) + [r.userData]
  {
  }

  lemma RemoveIds(rs: seq<Request>, p: nat)
    requires p < |rs|
    ensures multiset(RequestIds(rs)) == multiset(RequestIds(Remove(rs, p))) + multiset{rs[p].userData}
  {
    assert RequestIds(rs) == RequestIds(rs[..p]) + [rs[p].userData] + RequestIds(rs[p + 1..]);
    assert RequestIds(Remove(rs, p)) == RequestIds(rs[..p]) + RequestIds(rs[p + 1..]);
  }

  /** The kernel and the list stay in step exactly when a pushed entry's submit succeeds. */
  lemma DispatchTracksIff(b: Bridge, head: U16, empty: bool, plan: Plan, env: Env)
    requires Tracked(b) && (empty ==> plan.Reply?)
    ensures Tracked(Dispatch(b, head, empty, plan, env)) <==> !FailsOn(b, plan, env)
  {
    if plan.Submit? {
      AppendIds(b.inflight, Request(b.nextUserData, head, plan.buffer, plan.total));
      var ids := multiset(RequestIds(b.inflight));
      assert ids + multiset{b.nextUserData} != ids by {
        assert (ids + multiset{b.nextUserData})[b.nextUserData] == ids[b.nextUserData] + 1;
      }
    }
  }

  lemma {:induction false} SubmitAllTracks(b: Bridge, table: seq<Desc>, dev: Device, env: Env)
    requires Tracked(b) && !FailsIn(b, table, dev, env)
    ensures Tracked(SubmitAll(b, table, dev, env).bridge)
    decreases b.fifo.Backlog()
  {
    if b.fifo.Backlog() > 0 {
      var head := b.fifo.published[b.fifo.consumed];
      var chain := Chain(table, head);
      var plan := PlanFor(chain, dev);
      DispatchTracksIff(b.(fifo := b.fifo.Pop()), head, |chain| == 0, plan, env);
      if !plan.Panic? {
        SubmitAllTracks(Next(b, table, dev, env), table, dev, env);
      }
    }
  }

  ghost predicate UniqueIds(rs: seq<Request>) {
    forall i, j :: 0 <= i < j < |rs| ==> rs[i].userData != rs[j].userData
  }

  /** The used element that request `c.userData` of `rs` is owed: its own head, and its
      length unless the operation failed. */
  function AnswerFor(rs: seq<Request>, c: Completion): UsedElem
    requires Position(rs, c.userData).Some?
  {
    var r := rs[Position(rs, c.userData).value];
    UsedElem(r.head, if c.result < 0 then 0 else r.totalLen)
  }

  lemma {:induction false} InSeqAtPosition(rs: seq<Request>, id: nat)
    requires id in multiset(RequestIds(rs))
    ensures Position(rs, id).Some?
  {
    var ids := RequestIds(rs);
    assert id in ids;
    var k :| 0 <= k < |ids| && ids[k] == id;
    assert rs[k].userData == id;
  }

  lemma SameAnswer(small: seq<Request>, large: seq<Request>, c: Completion)
    requires UniqueIds(large) && Position(small, c.userData).Some?
    requires forall r :: r in small ==> r in large
    ensures Position(large, c.userData).Some?
    ensures AnswerFor(small, c) == AnswerFor(large, c)
  {
    var r := small[Position(small, c.userData).value];
    assert r in large;
    var k :| 0 <= k < |large| && large[k] == r;
  }

  lemma RetireOneExact(b: Bridge, c: Completion)
    requires c.userData in multiset(RequestIds(b.inflight))
    ensures var b' := RetireOne(b, c);
            && Position(b.inflight, c.userData).Some?
            && b'.fifo.used == b.fifo.used + [AnswerFor(b.inflight, c)]
            && multiset(RequestIds(b.inflight)) == multiset(RequestIds(b'.inflight)) + multiset{c.userData}
            && (forall r :: r in b'.inflight ==> r in b.inflight)
            && (Increasing(b.inflight, b.nextUserData) ==> Increasing(b'.inflight, b'.nextUserData))
  {
    InSeqAtPosition(b.inflight, c.userData);
    RemoveIds(b.inflight, Position(b.inflight, c.userData).value);
  }

  function Answers(rs: seq<Request>, cs: seq<Completion>): seq<UsedElem>
    requires forall k :: 0 <= k < |cs| ==> Position(rs, cs[k].userData).Some?
  {
    seq(|cs|, k requires 0 <= k < |cs| => AnswerFor(rs, cs[k]))
  }

  lemma LastId(cs: seq<Completion>)
    requires |cs| > 0
    ensures multiset(Ids(cs)) == multiset(Ids(cs[..|cs| - 1])) + multiset{cs[|cs| - 1].userData}
  {
    assert Ids(cs) == Ids(cs[..|cs| - 1]) + [cs[|cs| - 1].userData];
  }

  lemma StillThere(all: multiset<nat>, left: multiset<nat>, gone: multiset<nat>, x: nat)
    requires all == left + gone && gone + multiset{x} <= all
    ensures x in left
  {
    assert all[x] == left[x] + gone[x] && (gone + multiset{x})[x] == gone[x] + 1;
  }

  lemma CancelCommon(running: multiset<nat>, queued: multiset<nat>, left: multiset<nat>, arrived: multiset<nat>)
    requires running + queued == left + (queued + arrived)
    ensures running - arrived == left
  {
    forall x: nat ensures running[x] == (left + arrived)[x] {
      assert (running + queued)[x] == (left + (queued + arrived))[x];
    }
    assert running == left + arrived;
  }

  /** `b'` is `b` with the requests named by `cs` taken out of flight. */
  ghost predicate TakenOut(b: Bridge, cs: seq<Completion>, b': Bridge) {
    && multiset(RequestIds(b.inflight)) == multiset(RequestIds(b'.inflight)) + multiset(Ids(cs))
    && (forall r :: r in b'.inflight ==> r in b.inflight)
    && Increasing(b'.inflight, b'.nextUserData)
  }

  lemma {:induction false} RetireTakesOut(b: Bridge, cs: seq<Completion>)
    requires Increasing(b.inflight, b.nextUserData)
    requires multiset(Ids(cs)) <= multiset(RequestIds(b.inflight))
    ensures TakenOut(b, cs, Retire(b, cs))
  {
    if |cs| > 0 {
      var before, c := cs[..|cs| - 1], cs[|cs| - 1];
      LastId(cs);
      RetireTakesOut(b, before);
      var b1 := Retire(b, before);
      var all, left := multiset(RequestIds(b.inflight)), multiset(RequestIds(b1.inflight));
      StillThere(all, left, multiset(Ids(before)), c.userData);
      RetireOneExact(b1, c);
    }
  }

  ghost predicate RetiredExactly(b: Bridge, cs: seq<Completion>, b': Bridge) {
    && (forall k :: 0 <= k < |cs| ==> Position(b.inflight, cs[k].userData).Some?)
    && b'.fifo.used == b.fifo.used + Answers(b.inflight, cs)
    && TakenOut(b, cs, b')
  }

  lemma MoreAnswers(rs: seq<Request>, before: seq<Completion>, c: Completion)
    requires forall k :: 0 <= k < |before| ==> Position(rs, before[k].userData).Some?
    requires Position(rs, c.userData).Some?
    ensures forall k :: 0 <= k < |before + [c]| ==> Position(rs, (before + [c])[k].userData).Some?
    ensures Answers(rs, before + [c]) == Answers(rs, before) + [AnswerFor(rs, c)]
  {
  }

  lemma {:induction false} RetireAnswers(b: Bridge, cs: seq<Completion>)
    requires Increasing(b.inflight, b.nextUserData)
    requires multiset(Ids(cs)) <= multiset(RequestIds(b.inflight))
    ensures forall k :: 0 <= k < |cs| ==> Position(b.inflight, cs[k].userData).Some?
    ensures Retire(b, cs).fifo.used == b.fifo.used + Answers(b.inflight, cs)
  {
    if |cs| > 0 {
      var before, c := cs[..|cs| - 1], cs[|cs| - 1];
      assert cs == before + [c];
      LastId(cs);
      RetireAnswers(b, before);
      RetireTakesOut(b, before);
      var b1 := Retire(b, before);
      var all, left := multiset(RequestIds(b.inflight)), multiset(RequestIds(b1.inflight));
      StillThere(all, left, multiset(Ids(before)), c.userData);
      RetireOneExact(b1, c);
      SameAnswer(b1.inflight, b.inflight, c);
      MoreAnswers(b.inflight, before, c);
    }
  }

  /** Completions of distinct requests in flight: each one answers the request that carries
      its own id, with that request's head and length, and takes it out of the list. */
  lemma RetireExact(b: Bridge, cs: seq<Completion>)
    requires Increasing(b.inflight, b.nextUserData)
    requires multiset(Ids(cs)) <= multiset(RequestIds(b.inflight))
    ensures RetiredExactly(b, cs, Retire(b, cs))
  {
    RetireTakesOut(b, cs);
    RetireAnswers(b, cs);
  }

  lemma SubMultisetSize(a: multiset<nat>, b: multiset<nat>)
    requires a <= b
    ensures |a| <= |b|
  {
    assert b == a + (b - a);
  }

  /** There are never more completions to see than requests in flight. */
  lemma RoomForAll(b: Bridge, arrivals: seq<Completion>)
    requires Tracked(b) && b.kernel.CanFinish(arrivals)
    ensures var cs := b.kernel.cq + arrivals;
            && |cs| <= |b.inflight|
            && multiset(Ids(cs)) == multiset(Ids(b.kernel.cq)) + multiset(Ids(arrivals))
            && multiset(Ids(cs)) <= multiset(RequestIds(b.inflight))
  {
    var cs := b.kernel.cq + arrivals;
    assert Ids(cs) == Ids(b.kernel.cq) + Ids(arrivals);
    SubMultisetSize(multiset(Ids(cs)), multiset(RequestIds(b.inflight)));
  }

  /** With the buffer sized by the in-flight list, a wait loses no completion, retires every
      one it sees, and shortens the list. */
  lemma WaitIsExact(b: Bridge, arrivals: seq<Completion>)
    requires Tracked(b) && b.kernel.CanFinish(arrivals)
    ensures var cs := b.kernel.cq + arrivals;
            var b' := WaitAndRetire(b, arrivals);
            && Taken(cs, |b.inflight|) == cs && LeftInQueue(cs, |b.inflight|) == []
            && RetiredExactly(b, cs, b')
            && Tracked(b')
            && |b'.inflight| == |b.inflight| - |cs| < |b.inflight|
  {
    var cs := b.kernel.cq + arrivals;
    RoomForAll(b, arrivals);
    var b1 := b.(kernel := b.kernel.Finish(arrivals).(cq := []));
    RetireExact(b1, cs);
    RetireKeepsKernel(b1, cs);
    var b' := Retire(b1, cs);
    var left := multiset(RequestIds(b'.inflight));
    assert |left + multiset(Ids(cs))| == |left| + |cs|;
    CancelCommon(b.kernel.running, multiset(Ids(b.kernel.cq)), left, multiset(Ids(arrivals)));
    assert Ids([]) == [];
  }

  lemma ProcessTracks(b: Bridge, table: seq<Desc>, dev: Device, env: Env)
    requires Tracked(b) && !FailsIn(b, table, dev, env) && Legal(b, table, dev, env)
    ensures Tracked(Process(b, table, dev, env).bridge)
  {
    SubmitAllTracks(b, table, dev, env);
    var p := SubmitAll(b, table, dev, env);
    if p.panicked.None? && |p.bridge.inflight| > 0 && env.wait.Some? {
      WaitIsExact(p.bridge, env.wait.value);
    }
  }

  ghost predicate FailsAt(calls: seq<Call>, dev: Device, k: nat)
    requires k < |calls|
  {
    FailsIn(WithHeads(Run(Fresh, calls[..k], dev), calls[k].heads), calls[k].table, dev, calls[k].env)
  }

  /** No call of the run pushes an entry whose submit fails. */
  ghost predicate NoneFails(calls: seq<Call>, dev: Device) {
    forall k :: 0 <= k < |calls| ==> !FailsAt(calls, dev, k)
  }

  lemma NoneFailsBefore(calls: seq<Call>, dev: Device)
    requires NoneFails(calls, dev) && |calls| > 0
    ensures NoneFails(calls[..|calls| - 1], dev) && !FailsAt(calls, dev, |calls| - 1)
  {
    var before := calls[..|calls| - 1];
    forall k | 0 <= k < |before| ensures !FailsAt(before, dev, k) {
      assert before[..k] == calls[..k] && !FailsAt(calls, dev, k);
    }
  }

  lemma {:induction false} RunTracks(calls: seq<Call>, dev: Device)
    requires LegalRun(Fresh, calls, dev) && NoneFails(calls, dev)
    ensures Tracked(Run(Fresh, calls, dev))
  {
    if |calls| > 0 {
      var before, c := calls[..|calls| - 1], calls[|calls| - 1];
      LegalBefore(Fresh, calls, dev);
      NoneFailsBefore(calls, dev);
      RunTracks(before, dev);
      ProcessTracks(WithHeads(Run(Fresh, before, dev), c.heads), c.table, dev, c.env);
    }
  }

  lemma {:induction false} AtMostOnce(rs: seq<Request>, r: Request, bound: nat)
    requires Increasing(rs, bound)
    ensures multiset(rs)[r] <= 1
  {
    if |rs| > 0 {
      var before := rs[..|rs| - 1];
      AtMostOnce(before, r, bound);
      assert rs == before + [rs[|rs| - 1]];
      assert forall k :: 0 <= k < |before| ==> before[k].userData < rs[|rs| - 1].userData;
    }
  }

  lemma TwicePresent(rs: seq<Request>, i: nat, j: nat)
    requires i < j < |rs| && rs[i] == rs[j]
    ensures multiset(rs)[rs[i]] >= 2
  {
    assert rs == rs[..j] + [rs[j]] + rs[j + 1..];
    assert rs[i] in rs[..j];
  }

  lemma IssuedById(rs: seq<Request>, x: Request, y: Request, bound: nat)
    requires Increasing(rs, bound) && x in rs && y in rs && x.userData == y.userData
    ensures x == y
  {
  }

  lemma NextIncreases(b: Bridge, table: seq<Desc>, dev: Device, env: Env)
    requires b.fifo.Backlog() > 0 && Increasing(b.issued, b.nextUserData)
    ensures var b' := Next(b, table, dev, env);
            Increasing(b'.issued, b'.nextUserData)
  {
  }

  lemma NextOrders(b: Bridge, table: seq<Desc>, dev: Device, env: Env)
    requires b.fifo.Backlog() > 0 && Increasing(b.inflight, b.nextUserData)
    ensures var b' := Next(b, table, dev, env);
            Increasing(b'.inflight, b'.nextUserData)
  {
  }

  lemma {:induction false} SubmitAllIncreases(b: Bridge, table: seq<Desc>, dev: Device, env: Env)
    requires Increasing(b.issued, b.nextUserData)
    ensures var b' := SubmitAll(b, table, dev, env).bridge;
            Increasing(b'.issued, b'.nextUserData)
    decreases b.fifo.Backlog()
  {
    if b.fifo.Backlog() > 0 {
      NextIncreases(b, table, dev, env);
      if !PanicsOn(table, dev, b.fifo.published[b.fifo.consumed]) {
        SubmitAllIncreases(Next(b, table, dev, env), table, dev, env);
      }
    }
  }

  lemma ProcessKeepsIssued(b: Bridge, table: seq<Desc>, dev: Device, env: Env)
    ensures var p, b' := SubmitAll(b, table, dev, env).bridge, Process(b, table, dev, env).bridge;
            b'.issued == p.issued && b'.nextUserData == p.nextUserData && b'.kernel.log == p.kernel.log
  {
    var p := SubmitAll(b, table, dev, env).bridge;
    if env.wait.Some? {
      var done := p.kernel.Finish(env.wait.value);
      var room := |p.inflight|;
      RetireKeepsKernel(p.(kernel := done.(cq := LeftInQueue(done.cq, room))), Taken(done.cq, room));
    }
  }

  lemma {:induction false} SubmitAllOrders(b: Bridge, table: seq<Desc>, dev: Device, env: Env)
    requires Increasing(b.inflight, b.nextUserData)
    ensures var b' := SubmitAll(b, table, dev, env).bridge;
            Increasing(b'.inflight, b'.nextUserData)
    decreases b.fifo.Backlog()
  {
    if b.fifo.Backlog() > 0 {
      NextOrders(b, table, dev, env);
      if !PanicsOn(table, dev, b.fifo.published[b.fifo.consumed]) {
        SubmitAllOrders(Next(b, table, dev, env), table, dev, env);
      }
    }
  }

  lemma {:induction false} RetireOrders(b: Bridge, cs: seq<Completion>)
    requires Increasing(b.inflight, b.nextUserData)
    ensures Increasing(Retire(b, cs).inflight, Retire(b, cs).nextUserData)
  {
    if |cs| > 0 { RetireOrders(b, cs[..|cs| - 1]); }
  }

  /** The requests in flight are in the order of their ids, in every run. */
  lemma {:induction false} InflightIncreases(calls: seq<Call>, dev: Device)
    ensures var b := Run(Fresh, calls, dev);
            Increasing(b.inflight, b.nextUserData)
  {
    if |calls| > 0 {
      var before, c := calls[..|calls| - 1], calls[|calls| - 1];
      InflightIncreases(before, dev);
      var b := WithHeads(Run(Fresh, before, dev), c.heads);
      SubmitAllOrders(b, c.table, dev, c.env);
      var p := SubmitAll(b, c.table, dev, c.env).bridge;
      if c.env.wait.Some? {
        var done := p.kernel.Finish(c.env.wait.value);
        var room := |p.inflight|;
        RetireOrders(p.(kernel := done.(cq := LeftInQueue(done.cq, room))), Taken(done.cq, room));
      }
    }
  }

  lemma {:induction false} IssuedIncrease(calls: seq<Call>, dev: Device)
    ensures var b := Run(Fresh, calls, dev);
            Increasing(b.issued, b.nextUserData)
  {
    if |calls| > 0 {
      var before, c := calls[..|calls| - 1], calls[|calls| - 1];
      IssuedIncrease(before, dev);
      var b := WithHeads(Run(Fresh, before, dev), c.heads);
      SubmitAllIncreases(b, c.table, dev, c.env);
      ProcessKeepsIssued(b, c.table, dev, c.env);
    }
  }

  lemma InEither(issued: seq<Request>, retired: seq<Request>, inflight: seq<Request>, r: Request)
    requires multiset(issued) == multiset(retired) + multiset(inflight)
    requires r in retired || r in inflight
    ensures r in issued
  {
    assert multiset(issued)[r] == multiset(retired)[r] + multiset(inflight)[r];
  }

  lemma NotInBoth(issued: seq<Request>, retired: seq<Request>, inflight: seq<Request>, bound: nat, r: Request)
    requires multiset(issued) == multiset(retired) + multiset(inflight) && Increasing(issued, bound)
    ensures !(r in retired && r in inflight) && multiset(retired)[r] <= 1
  {
    AtMostOnce(issued, r, bound);
    assert multiset(issued)[r] == multiset(retired)[r] + multiset(inflight)[r];
  }

  /** Issued in the order of ids and split in two: every id is in one part, once. */
  lemma EachOnce(issued: seq<Request>, retired: seq<Request>, inflight: seq<Request>, bound: nat)
    requires multiset(issued) == multiset(retired) + multiset(inflight) && Increasing(issued, bound)
    ensures UniqueIds(retired)
    ensures forall x, y :: x in retired && y in inflight ==> x.userData != y.userData
  {
    forall i, j | 0 <= i < j < |retired| ensures retired[i].userData != retired[j].userData {
      var x, y := retired[i], retired[j];
      InEither(issued, retired, inflight, x);
      InEither(issued, retired, inflight, y);
      NotInBoth(issued, retired, inflight, bound, x);
      if x == y { TwicePresent(retired, i, j); } else if x.userData == y.userData { IssuedById(issued, x, y, bound); }
    }
    forall x, y | x in retired && y in inflight ensures x.userData != y.userData {
      InEither(issued, retired, inflight, x);
      InEither(issued, retired, inflight, y);
      NotInBoth(issued, retired, inflight, bound, x);
      if x.userData == y.userData { IssuedById(issued, x, y, bound); }
    }
  }

  /** At most once, over every run, whatever the guest and the kernel do: the requests answered
      from completions and those still in flight are, together, exactly the issued ones, and
      no id is answered twice or answered while still in flight. */
  lemma EachRequestRetiredOnce(calls: seq<Call>, dev: Device)
    ensures var b := Run(Fresh, calls, dev);
            && multiset(b.issued) == multiset(b.retired) + multiset(b.inflight)
            && UniqueIds(b.issued)
            && UniqueIds(b.retired)
            && (forall x, y :: x in b.retired && y in b.inflight ==> x.userData != y.userData)
  {
    IssuedIncrease(calls, dev);
    HeadsAreConserved(calls, dev);
    var b := Run(Fresh, calls, dev);
    EachOnce(b.issued, b.retired, b.inflight, b.nextUserData);
  }

  // ---------------------------------------------------------------------------
  // No completion is ever discarded
  // ---------------------------------------------------------------------------

  function LogIds(log: seq<Sqe>): (ids: seq<nat>)
    ensures |ids| == |log|
  {
    seq(|log|, k requires 0 <= k < |log| => log[k].userData)
  }

  /** Every entry ever pushed is still running, waits in the completion queue, or was retired
      by the completion carrying its own id. */
  ghost predicate EntriesAccounted(b: Bridge) {
    multiset(LogIds(b.kernel.log))
    == b.kernel.running + multiset(Ids(b.kernel.cq)) + multiset(RequestIds(b.retired))
  }

  lemma DispatchLogsIssued(b: Bridge, head: U16, empty: bool, plan: Plan, env: Env)
    requires LogIds(b.kernel.log) == RequestIds(b.issued) && !FailsOn(b, plan, env)
    ensures var b' := Dispatch(b, head, empty, plan, env);
            LogIds(b'.kernel.log) == RequestIds(b'.issued)
  {
    if plan.Submit? {
      var id := b.nextUserData;
      AppendIds(b.issued, Request(id, head, plan.buffer, plan.total));
      assert LogIds(b.kernel.log + [Sqe(plan.op, id)]) == LogIds(b.kernel.log) + [id];
    }
  }

  lemma {:induction false} SubmitAllLogsIssued(b: Bridge, table: seq<Desc>, dev: Device, env: Env)
    requires LogIds(b.kernel.log) == RequestIds(b.issued) && !FailsIn(b, table, dev, env)
    ensures var b' := SubmitAll(b, table, dev, env).bridge;
            LogIds(b'.kernel.log) == RequestIds(b'.issued)
    decreases b.fifo.Backlog()
  {
    if b.fifo.Backlog() > 0 {
      var head := b.fifo.published[b.fifo.consumed];
      var chain := Chain(table, head);
      DispatchLogsIssued(b.(fifo := b.fifo.Pop()), head, |chain| == 0, PlanFor(chain, dev), env);
      if !PanicsOn(table, dev, head) {
        SubmitAllLogsIssued(Next(b, table, dev, env), table, dev, env);
      }
    }
  }

  lemma {:induction false} RunLogsIssued(calls: seq<Call>, dev: Device)
    requires NoneFails(calls, dev)
    ensures var b := Run(Fresh, calls, dev);
            LogIds(b.kernel.log) == RequestIds(b.issued)
  {
    if |calls| > 0 {
      var before, c := calls[..|calls| - 1], calls[|calls| - 1];
      NoneFailsBefore(calls, dev);
      RunLogsIssued(before, dev);
      var b := WithHeads(Run(Fresh, before, dev), c.heads);
      SubmitAllLogsIssued(b, c.table, dev, c.env);
      ProcessKeepsIssued(b, c.table, dev, c.env);
    }
  }

  /** The same requests have the same ids. */
  lemma {:induction false} SameIds(a: seq<Request>, b: seq<Request>)
    requires multiset(a) == multiset(b)
    ensures multiset(RequestIds(a)) == multiset(RequestIds(b))
  {
    if |a| == 0 {
      assert |multiset(b)| == 0;
    } else {
      var n := |a| - 1;
      assert a[n] in multiset(b);
      var p :| 0 <= p < |b| && b[p] == a[n];
      RemoveHeads(a, n);
      RemoveHeads(b, p);
      RemoveIds(a, n);
      RemoveIds(b, p);
      assert multiset(Remove(a, n)) == multiset(a) - multiset{a[n]};
      assert multiset(Remove(b, p)) == multiset(b) - multiset{a[n]};
      SameIds(Remove(a, n), Remove(b, p));
    }
  }

  lemma IdsSplit(issued: seq<Request>, retired: seq<Request>, inflight: seq<Request>)
    requires multiset(issued) == multiset(retired) + multiset(inflight)
    ensures multiset(RequestIds(issued)) == multiset(RequestIds(retired)) + multiset(RequestIds(inflight))
  {
    SameIds(issued, retired + inflight);
    assert RequestIds(retired + inflight) == RequestIds(retired) + RequestIds(inflight);
  }

  /** Over every run in which pushed entries are submitted, no completion is ever discarded. */
  lemma NoCompletionDiscarded(calls: seq<Call>, dev: Device)
    requires LegalRun(Fresh, calls, dev) && NoneFails(calls, dev)
    ensures EntriesAccounted(Run(Fresh, calls, dev))
  {
    RunTracks(calls, dev);
    RunLogsIssued(calls, dev);
    HeadsAreConserved(calls, dev);
    var b := Run(Fresh, calls, dev);
    IdsSplit(b.issued, b.retired, b.inflight);
  }

  // ---------------------------------------------------------------------------
  // Buffers outlive the operations that use them
  // ---------------------------------------------------------------------------

  function OpLen(op: IoOp): nat {
    match op
    case Read(_, len) => len
    case Write(_, data) => |data|
    case Flush => 0
  }

  /** The request's buffer is the memory the operation works on. */
  predicate Backs(r: Request, sqe: Sqe) {
    && r.userData == sqe.userData
    && |r.buffer| == OpLen(sqe.op) == r.totalLen
    && (sqe.op.Write? ==> sqe.op.data == r.buffer)
  }

  ghost predicate BackedBy(issued: seq<Request>, sqe: Sqe) {
    exists r :: r in issued && Backs(r, sqe)
  }

  ghost predicate AllBacked(b: Bridge) {
    forall k :: 0 <= k < |b.kernel.log| ==> BackedBy(b.issued, b.kernel.log[k])
  }

  lemma MoreIssued(issued: seq<Request>, r: Request, sqe: Sqe)
    requires BackedBy(issued, sqe)
    ensures BackedBy(issued + [r], sqe)
  {
    var x :| x in issued && Backs(x, sqe);
    assert x in issued + [r];
  }

  lemma DispatchBacks(b: Bridge, head: U16, chain: seq<Desc>, dev: Device, env: Env)
    requires AllBacked(b) && !FailsOn(b, PlanFor(chain, dev), env)
    ensures AllBacked(Dispatch(b, head, |chain| == 0, PlanFor(chain, dev), env))
  {
    var plan := PlanFor(chain, dev);
    if plan.Submit? && env.verdict(b.nextUserData).Accepted? {
      SubmittedInside(chain, dev);
      var r, sqe := Request(b.nextUserData, head, plan.buffer, plan.total), Sqe(plan.op, b.nextUserData);
      var b' := Dispatch(b, head, |chain| == 0, plan, env);
      assert b'.issued == b.issued + [r] && b'.kernel.log == b.kernel.log + [sqe];
      assert r in b'.issued && Backs(r, sqe);
      forall k | 0 <= k < |b.kernel.log| ensures BackedBy(b'.issued, b'.kernel.log[k]) {
        MoreIssued(b.issued, r, b.kernel.log[k]);
      }
    }
  }

  lemma {:induction false} SubmitAllBacks(b: Bridge, table: seq<Desc>, dev: Device, env: Env)
    requires AllBacked(b) && !FailsIn(b, table, dev, env)
    ensures AllBacked(SubmitAll(b, table, dev, env).bridge)
    decreases b.fifo.Backlog()
  {
    if b.fifo.Backlog() > 0 {
      var head := b.fifo.published[b.fifo.consumed];
      DispatchBacks(b.(fifo := b.fifo.Pop()), head, Chain(table, head), dev, env);
      if !PanicsOn(table, dev, head) {
        SubmitAllBacks(Next(b, table, dev, env), table, dev, env);
      }
    }
  }

  lemma {:induction false} RunBacks(calls: seq<Call>, dev: Device)
    requires NoneFails(calls, dev)
    ensures AllBacked(Run(Fresh, calls, dev))
  {
    if |calls| > 0 {
      var before, c := calls[..|calls| - 1], calls[|calls| - 1];
      NoneFailsBefore(calls, dev);
      RunBacks(before, dev);
      var b := WithHeads(Run(Fresh, before, dev), c.heads);
      SubmitAllBacks(b, c.table, dev, c.env);
      ProcessKeepsIssued(b, c.table, dev, c.env);
    }
  }

  /** The engine's safety condition: an operation the kernel is still running has its buffer,
      of exactly its length and for a write with exactly its bytes, held by a request in
      flight. */
  ghost predicate BuffersHeld(b: Bridge) {
    forall k :: 0 <= k < |b.kernel.log| && b.kernel.log[k].userData in b.kernel.running ==>
      BackedBy(b.inflight, b.kernel.log[k])
  }

  lemma TrackedHolds(b: Bridge)
    requires Tracked(b) && AllBacked(b)
    requires forall r :: r in b.inflight ==> r in b.issued
    ensures BuffersHeld(b)
  {
    forall k | 0 <= k < |b.kernel.log| && b.kernel.log[k].userData in b.kernel.running
      ensures BackedBy(b.inflight, b.kernel.log[k])
    {
      var sqe := b.kernel.log[k];
      assert BackedBy(b.issued, sqe);
      var r :| r in b.issued && Backs(r, sqe);
      assert sqe.userData in b.kernel.running + multiset(Ids(b.kernel.cq));
      InSeqAtPosition(b.inflight, sqe.userData);
      var held := b.inflight[Position(b.inflight, sqe.userData).value];
      IssuedById(b.issued, r, held, b.nextUserData);
    }
  }

  lemma InflightIssued(b: Bridge, lost: multiset<int>)
    requires Balanced(b, lost)
    ensures forall r :: r in b.inflight ==> r in b.issued
  {
    forall r | r in b.inflight ensures r in b.issued {
      assert multiset(b.issued)[r] == multiset(b.retired)[r] + multiset(b.inflight)[r];
    }
  }

  /** The engine's safety condition holds at the end of every run in which no pushed entry's
      submit fails. */
  lemma BuffersOutliveOperations(calls: seq<Call>, dev: Device)
    requires LegalRun(Fresh, calls, dev) && NoneFails(calls, dev)
    ensures BuffersHeld(Run(Fresh, calls, dev))
  {
    RunTracks(calls, dev);
    RunBacks(calls, dev);
    HeadsAreConserved(calls, dev);
    var b := Run(Fresh, calls, dev);
    InflightIssued(b, multiset(Widen(PanickedHeads(Fresh, calls, dev))));
    TrackedHolds(b);
  }

  // ---------------------------------------------------------------------------
  // ... exactly when no pushed entry's submit fails
  // ---------------------------------------------------------------------------

  /** The bridge when call k of the run has submitted and is about to wait: the kernel can
      already be working on everything submitted. */
  function AboutToWait(calls: seq<Call>, dev: Device, k: nat): Bridge
    requires k < |calls|
  {
    var b := WithHeads(Run(Fresh, calls[..k], dev), calls[k].heads);
    SubmitAll(b, calls[k].table, dev, calls[k].env).bridge
  }

  /** The kernel runs an entry whose id no request in flight has or will get. */
  ghost predicate Orphan(b: Bridge, id: nat) {
    && id < b.nextUserData && id in b.kernel.running
    && (exists k :: 0 <= k < |b.kernel.log| && b.kernel.log[k].userData == id)
    && (forall r :: r in b.inflight ==> r.userData != id)
  }

  lemma DispatchKeepsOrphan(b: Bridge, head: U16, empty: bool, plan: Plan, env: Env, id: nat)
    requires Orphan(b, id)
    ensures Orphan(Dispatch(b, head, empty, plan, env), id)
  {
    var b' := Dispatch(b, head, empty, plan, env);
    var k :| 0 <= k < |b.kernel.log| && b.kernel.log[k].userData == id;
    assert b'.kernel.log[k] == b.kernel.log[k];
  }

  lemma {:induction false} SubmitAllKeepsOrphan(b: Bridge, table: seq<Desc>, dev: Device, env: Env, id: nat)
    requires Orphan(b, id)
    ensures Orphan(SubmitAll(b, table, dev, env).bridge, id)
    decreases b.fifo.Backlog()
  {
    if b.fifo.Backlog() > 0 {
      var head := b.fifo.published[b.fifo.consumed];
      var chain := Chain(table, head);
      DispatchKeepsOrphan(b.(fifo := b.fifo.Pop()), head, |chain| == 0, PlanFor(chain, dev), env, id);
      if !PanicsOn(table, dev, head) {
        SubmitAllKeepsOrphan(Next(b, table, dev, env), table, dev, env, id);
      }
    }
  }

  /** A failing submit leaves an orphan, whatever is dispatched after it. */
  lemma {:induction false} FailureOrphans(b: Bridge, table: seq<Desc>, dev: Device, env: Env) returns (id: nat)
    requires Increasing(b.inflight, b.nextUserData) && FailsIn(b, table, dev, env)
    ensures Orphan(SubmitAll(b, table, dev, env).bridge, id)
    decreases b.fifo.Backlog()
  {
    var head := b.fifo.published[b.fifo.consumed];
    var plan := PlanFor(Chain(table, head), dev);
    var b' := Next(b, table, dev, env);
    if FailsOn(b, plan, env) {
      id := b.nextUserData;
      ChainOfSubmit(table, dev, head);
      assert b'.kernel.log[|b.kernel.log|].userData == id;
      SubmitAllKeepsOrphan(b', table, dev, env, id);
    } else {
      id := FailureOrphans(b', table, dev, env);
    }
  }

  lemma ChainOfSubmit(table: seq<Desc>, dev: Device, head: U16)
    requires PlanFor(Chain(table, head), dev).Submit?
    ensures |Chain(table, head)| > 0
  {
  }

  lemma OrphanBreaks(b: Bridge, id: nat)
    requires Orphan(b, id)
    ensures !BuffersHeld(b) && !Tracked(b)
  {
    var k :| 0 <= k < |b.kernel.log| && b.kernel.log[k].userData == id;
    assert !BackedBy(b.inflight, b.kernel.log[k]);
    if Tracked(b) {
      assert id in b.kernel.running + multiset(Ids(b.kernel.cq));
      InSeqAtPosition(b.inflight, id);
    }
  }

  lemma FailingCallBreaks(calls: seq<Call>, dev: Device, k: nat)
    requires k < |calls| && FailsAt(calls, dev, k)
    ensures !BuffersHeld(AboutToWait(calls, dev, k)) && !Tracked(AboutToWait(calls, dev, k))
  {
    InflightIncreases(calls[..k], dev);
    var b := WithHeads(Run(Fresh, calls[..k], dev), calls[k].heads);
    var id := FailureOrphans(b, calls[k].table, dev, calls[k].env);
    OrphanBreaks(AboutToWait(calls, dev, k), id);
  }

  lemma {:induction false} UpTo(calls: seq<Call>, dev: Device, k: nat)
    requires LegalRun(Fresh, calls, dev) && NoneFails(calls, dev) && k <= |calls|
    ensures LegalRun(Fresh, calls[..k], dev) && NoneFails(calls[..k], dev)
  {
    var front := calls[..k];
    forall j | 0 <= j < k ensures !FailsAt(front, dev, j) && LegalCall(Run(Fresh, front[..j], dev), front[j], dev) {
      assert front[..j] == calls[..j] && !FailsAt(calls, dev, j);
      assert LegalCall(Run(Fresh, calls[..j], dev), calls[j], dev);
    }
  }

  lemma SoundCallHolds(calls: seq<Call>, dev: Device, k: nat)
    requires LegalRun(Fresh, calls, dev) && NoneFails(calls, dev) && k < |calls|
    ensures Tracked(AboutToWait(calls, dev, k)) && BuffersHeld(AboutToWait(calls, dev, k))
  {
    var before, c := calls[..k], calls[k];
    UpTo(calls, dev, k);
    RunTracks(before, dev);
    RunBacks(before, dev);
    HeadsAreConserved(before, dev);
    assert !FailsAt(calls, dev, k);
    var b := WithHeads(Run(Fresh, before, dev), c.heads);
    var lost := multiset(Widen(PanickedHeads(Fresh, before, dev)));
    MoreHeadsBalance(Run(Fresh, before, dev), c.heads, lost);
    SubmitAllTracks(b, c.table, dev, c.env);
    SubmitAllBacks(b, c.table, dev, c.env);
    SubmitAllBalances(b, c.table, dev, c.env, lost);
    var p := SubmitAll(b, c.table, dev, c.env);
    InflightIssued(p.bridge, LostWith(lost, p.panicked));
    TrackedHolds(p.bridge);
  }

  /** The engine's safety condition, exactly: in every legal run, every operation the kernel
      runs while a call waits has its buffer held if and only if no call pushed an entry
      whose submit failed. */
  lemma BuffersHeldIff(calls: seq<Call>, dev: Device)
    requires LegalRun(Fresh, calls, dev)
    ensures (forall k :: 0 <= k < |calls| ==> BuffersHeld(AboutToWait(calls, dev, k))) <==> NoneFails(calls, dev)
  {
    if NoneFails(calls, dev) {
      forall k | 0 <= k < |calls| ensures BuffersHeld(AboutToWait(calls, dev, k)) {
        SoundCallHolds(calls, dev, k);
      }
    } else {
      var k :| 0 <= k < |calls| && FailsAt(calls, dev, k);
      FailingCallBreaks(calls, dev, k);
    }
  }

  /** Under the same condition, and no other, the kernel and the in-flight list hold the same
      ids at every wait. */
  lemma AlwaysTrackedIff(calls: seq<Call>, dev: Device)
    requires LegalRun(Fresh, calls, dev)
    ensures (forall k :: 0 <= k < |calls| ==> Tracked(AboutToWait(calls, dev, k))) <==> NoneFails(calls, dev)
  {
    if NoneFails(calls, dev) {
      forall k | 0 <= k < |calls| ensures Tracked(AboutToWait(calls, dev, k)) {
        SoundCallHolds(calls, dev, k);
      }
    } else {
      var k :| 0 <= k < |calls| && FailsAt(calls, dev, k);
      FailingCallBreaks(calls, dev, k);
    }
  }

  // ---------------------------------------------------------------------------
  // ... and no completion is discarded exactly when every one seen was expected
  // ---------------------------------------------------------------------------

  /** Submitting, failing or not, adds to the log what it adds to the running operations. */
  lemma {:induction false} SubmitAllAccounts(b: Bridge, table: seq<Desc>, dev: Device, env: Env)
    requires EntriesAccounted(b)
    ensures EntriesAccounted(SubmitAll(b, table, dev, env).bridge)
    decreases b.fifo.Backlog()
  {
    if b.fifo.Backlog() > 0 {
      NextAccounts(b, table, dev, env);
      if !PanicsOn(table, dev, b.fifo.published[b.fifo.consumed]) {
        SubmitAllAccounts(Next(b, table, dev, env), table, dev, env);
      }
    }
  }

  lemma NextAccounts(b: Bridge, table: seq<Desc>, dev: Device, env: Env)
    requires b.fifo.Backlog() > 0 && EntriesAccounted(b)
    ensures EntriesAccounted(Next(b, table, dev, env))
  {
    NextPushes(b, table, dev, env);
    var plan := PlanFor(Chain(table, b.fifo.published[b.fifo.consumed]), dev);
    if plan.Submit? { PushAccounts(b, Next(b, table, dev, env), Sqe(plan.op, b.nextUserData)); }
  }

  lemma NextPushes(b: Bridge, table: seq<Desc>, dev: Device, env: Env)
    requires b.fifo.Backlog() > 0
    ensures var b', plan := Next(b, table, dev, env), PlanFor(Chain(table, b.fifo.published[b.fifo.consumed]), dev);
            && b'.retired == b.retired
            && (b'.kernel == b.kernel
                || (plan.Submit? && b'.kernel == b.kernel.Push(Sqe(plan.op, b.nextUserData))))
  {
  }

  lemma PushAccounts(b: Bridge, b': Bridge, sqe: Sqe)
    requires EntriesAccounted(b) && b'.retired == b.retired
    requires b'.kernel == b.kernel || b'.kernel == b.kernel.Push(sqe)
    ensures EntriesAccounted(b')
  {
    if b'.kernel != b.kernel {
      assert LogIds(b'.kernel.log) == LogIds(b.kernel.log) + [sqe.userData];
    }
  }

  /** Retiring moves ids from the list to the answered ones, one per completion at most, and
      one for each exactly when every completion found its request. */
  lemma {:induction false} RetireCounts(b: Bridge, cs: seq<Completion>)
    ensures var b' := Retire(b, cs);
            && |b'.retired| - |b.retired| <= |cs|
            && multiset(RequestIds(b'.retired)) + multiset(RequestIds(b'.inflight))
               == multiset(RequestIds(b.retired)) + multiset(RequestIds(b.inflight))
            && (|b'.retired| - |b.retired| == |cs| ==>
                  multiset(RequestIds(b.inflight)) == multiset(RequestIds(b'.inflight)) + multiset(Ids(cs)))
  {
    if |cs| > 0 {
      var c := cs[|cs| - 1];
      var b1 := Retire(b, cs[..|cs| - 1]);
      RetireCounts(b, cs[..|cs| - 1]);
      LastId(cs);
      match Position(b1.inflight, c.userData)
      case None =>
      case Some(p) =>
        RemoveIds(b1.inflight, p);
        AppendIds(b1.retired, b1.inflight[p]);
    }
  }

  /** Every completion the wait can see belongs to a request in flight. */
  ghost predicate AllExpected(b: Bridge, arrivals: seq<Completion>) {
    multiset(Ids(b.kernel.cq + arrivals)) <= multiset(RequestIds(b.inflight))
  }

  lemma ExpectedAreKept(b: Bridge, arrivals: seq<Completion>)
    requires EntriesAccounted(b) && b.kernel.CanFinish(arrivals) && Increasing(b.inflight, b.nextUserData)
    requires AllExpected(b, arrivals)
    ensures EntriesAccounted(WaitAndRetire(b, arrivals))
  {
    var cs := b.kernel.cq + arrivals;
    assert Ids(cs) == Ids(b.kernel.cq) + Ids(arrivals);
    SubMultisetSize(multiset(Ids(cs)), multiset(RequestIds(b.inflight)));
    var b1 := b.(kernel := b.kernel.Finish(arrivals).(cq := []));
    RetireTakesOut(b1, cs);
    RetireCounts(b1, cs);
    RetireKeepsKernel(b1, cs);
    var left := multiset(RequestIds(Retire(b1, cs).inflight));
    SameRest(multiset(RequestIds(Retire(b1, cs).retired)), multiset(RequestIds(b.retired)) + multiset(Ids(cs)), left);
    assert Ids([]) == [];
  }

  lemma SameRest(a: multiset<nat>, b: multiset<nat>, rest: multiset<nat>)
    requires a + rest == b + rest
    ensures a == b
  {
    forall x: nat ensures a[x] == b[x] { assert (a + rest)[x] == (b + rest)[x]; }
  }

  lemma KeptWereExpected(b: Bridge, arrivals: seq<Completion>)
    requires EntriesAccounted(b) && b.kernel.CanFinish(arrivals)
    requires EntriesAccounted(WaitAndRetire(b, arrivals))
    ensures AllExpected(b, arrivals)
  {
    var cs, room := b.kernel.cq + arrivals, |b.inflight|;
    var taken, left := Taken(cs, room), LeftInQueue(cs, room);
    var b1 := b.(kernel := b.kernel.Finish(arrivals).(cq := left));
    RetireKeepsKernel(b1, taken);
    RetireCounts(b1, taken);
    AccountedSizes(b);
    AccountedSizes(Retire(b1, taken));
    assert b1.kernel.running + multiset(Ids(arrivals)) == b.kernel.running;
    assert |b1.kernel.running| == |b.kernel.running| - |arrivals|;
    assert taken == cs;
  }

  lemma AccountedSizes(b: Bridge)
    requires EntriesAccounted(b)
    ensures |b.kernel.log| == |b.kernel.running| + |b.kernel.cq| + |b.retired|
  {
    assert |multiset(LogIds(b.kernel.log))| == |b.kernel.log|;
  }

  lemma WaitAccountsIff(b: Bridge, arrivals: seq<Completion>)
    requires EntriesAccounted(b) && b.kernel.CanFinish(arrivals) && Increasing(b.inflight, b.nextUserData)
    ensures EntriesAccounted(WaitAndRetire(b, arrivals)) <==> AllExpected(b, arrivals)
  {
    if AllExpected(b, arrivals) {
      ExpectedAreKept(b, arrivals);
    } else if EntriesAccounted(WaitAndRetire(b, arrivals)) {
      KeptWereExpected(b, arrivals);
    }
  }

  /** Call k of the run waits. */
  predicate WaitsAt(calls: seq<Call>, dev: Device, k: nat)
    requires k < |calls|
  {
    var b := WithHeads(Run(Fresh, calls[..k], dev), calls[k].heads);
    var p := SubmitAll(b, calls[k].table, dev, calls[k].env);
    p.panicked.None? && |p.bridge.inflight| > 0 && calls[k].env.wait.Some?
  }

  ghost predicate ExpectedAt(calls: seq<Call>, dev: Device, k: nat)
    requires k < |calls|
  {
    WaitsAt(calls, dev, k) ==> AllExpected(AboutToWait(calls, dev, k), calls[k].env.wait.value)
  }

  lemma LastCall(calls: seq<Call>, dev: Device, k: nat)
    requires k < |calls|
    ensures var p := AboutToWait(calls, dev, k);
            Run(Fresh, calls[..k + 1], dev)
            == if WaitsAt(calls, dev, k) then WaitAndRetire(p, calls[k].env.wait.value) else p
  {
    assert calls[..k + 1][..k] == calls[..k];
  }

  lemma AccountsAtCall(calls: seq<Call>, dev: Device, k: nat)
    requires LegalRun(Fresh, calls, dev) && k < |calls| && EntriesAccounted(Run(Fresh, calls[..k], dev))
    ensures EntriesAccounted(Run(Fresh, calls[..k + 1], dev)) <==> ExpectedAt(calls, dev, k)
  {
    var before, c := calls[..k], calls[k];
    LastCall(calls, dev, k);
    assert LegalCall(Run(Fresh, before, dev), c, dev);
    var b := WithHeads(Run(Fresh, before, dev), c.heads);
    InflightIncreases(before, dev);
    SubmitAllAccounts(b, c.table, dev, c.env);
    SubmitAllOrders(b, c.table, dev, c.env);
    if WaitsAt(calls, dev, k) { WaitAccountsIff(AboutToWait(calls, dev, k), c.env.wait.value); }
  }

  lemma {:induction false} AccountedUpTo(calls: seq<Call>, dev: Device, k: nat)
    requires LegalRun(Fresh, calls, dev) && k <= |calls|
    requires forall j :: 0 <= j < |calls| ==> ExpectedAt(calls, dev, j)
    ensures EntriesAccounted(Run(Fresh, calls[..k], dev))
  {
    if k > 0 {
      AccountedUpTo(calls, dev, k - 1);
      AccountsAtCall(calls, dev, k - 1);
    } else {
      assert LogIds([]) == [] && Ids([]) == [] && RequestIds([]) == [];
    }
  }

  /** In every legal run, whether submits fail or not: each entry ever pushed is accounted for
      after every call if and only if no wait saw a completion without a request in flight. */
  lemma NothingDiscardedIff(calls: seq<Call>, dev: Device)
    requires LegalRun(Fresh, calls, dev)
    ensures (forall k :: 0 <= k <= |calls| ==> EntriesAccounted(Run(Fresh, calls[..k], dev))) <==>
              forall k :: 0 <= k < |calls| ==> ExpectedAt(calls, dev, k)
  {
    if forall k :: 0 <= k < |calls| ==> ExpectedAt(calls, dev, k) {
      forall k | 0 <= k <= |calls| ensures EntriesAccounted(Run(Fresh, calls[..k], dev)) {
        AccountedUpTo(calls, dev, k);
      }
    }
    if forall k :: 0 <= k <= |calls| ==> EntriesAccounted(Run(Fresh, calls[..k], dev)) {
      forall k | 0 <= k < |calls| ensures ExpectedAt(calls, dev, k) {
        AccountsAtCall(calls, dev, k);
      }
    }
  }

  // ---------------------------------------------------------------------------
  // Draining
  // ---------------------------------------------------------------------------

  lemma WaitShortens(b: Bridge, arrivals: seq<Completion>)
    requires Tracked(b) && b.kernel.CanFinish(arrivals)
    ensures var b' := WaitAndRetire(b, arrivals);
            Tracked(b') && b'.fifo.Backlog() == b.fifo.Backlog() && |b'.inflight| < |b.inflight|
  {
    WaitIsExact(b, arrivals);
    var done := b.kernel.Finish(arrivals);
    var room := |b.inflight|;
    RetireKeepsKernel(b.(kernel := done.(cq := LeftInQueue(done.cq, room))), Taken(done.cq, room));
  }

  ghost predicate IdleCall(c: Call) {
    c.heads == [] && c.env.wait.Some?
  }

  /** A call with nothing new to pop and a wait that succeeds shortens the list. */
  lemma IdleCallShortens(b: Bridge, c: Call, dev: Device)
    requires Tracked(b) && b.fifo.Backlog() == 0 && IdleCall(c)
    requires Legal(WithHeads(b, c.heads), c.table, dev, c.env)
    ensures var b' := CallOnce(b, c, dev).bridge;
            && Tracked(b') && b'.fifo.Backlog() == 0
            && (if |b.inflight| == 0 then |b'.inflight| == 0 else |b'.inflight| < |b.inflight|)
  {
    assert b.fifo.published + [] == b.fifo.published;
    assert WithHeads(b, c.heads) == b;
    assert SubmitAll(b, c.table, dev, c.env) == Phase1(b, None);
    if |b.inflight| > 0 {
      WaitShortens(b, c.env.wait.value);
    }
  }

  ghost predicate IdleCalls(calls: seq<Call>) {
    forall k :: 0 <= k < |calls| ==> IdleCall(calls[k])
  }

  /** Draining: every such call shortens a non-empty in-flight list, so as many calls as
      there are requests in flight empty it. */
  lemma {:induction false} IdleCallsDrain(b: Bridge, calls: seq<Call>, dev: Device)
    requires Tracked(b) && b.fifo.Backlog() == 0
    requires IdleCalls(calls) && LegalRun(b, calls, dev)
    ensures var b' := Run(b, calls, dev);
            && Tracked(b') && b'.fifo.Backlog() == 0
            && (|b'.inflight| == 0 || |b'.inflight| <= |b.inflight| - |calls|)
            && (|calls| >= |b.inflight| ==> b'.inflight == [])
  {
    if |calls| > 0 {
      var before, c := calls[..|calls| - 1], calls[|calls| - 1];
      LegalBefore(b, calls, dev);
      IdleCallsDrain(b, before, dev);
      IdleCallShortens(Run(b, before, dev), c, dev);
    }
  }

  // ---------------------------------------------------------------------------
  // What a failing submit breaks
  // ---------------------------------------------------------------------------

  /** A request in flight whose operation the kernel neither runs nor reports. */
  ghost predicate Abandoned(b: Bridge, r: Request) {
    && r in b.inflight && r.userData < b.nextUserData
    && r.userData !in b.kernel.running && r.userData !in Ids(b.kernel.cq)
  }

  lemma {:induction false} SubmitAllAbandons(b: Bridge, table: seq<Desc>, dev: Device, env: Env, r: Request)
    requires Abandoned(b, r)
    ensures Abandoned(SubmitAll(b, table, dev, env).bridge, r)
    decreases b.fifo.Backlog()
  {
    if b.fifo.Backlog() > 0 && !PanicsOn(table, dev, b.fifo.published[b.fifo.consumed]) {
      SubmitAllAbandons(Next(b, table, dev, env), table, dev, env, r);
    }
  }

  lemma {:induction false} RetireLeaves(b: Bridge, cs: seq<Completion>, r: Request)
    requires r in b.inflight && r.userData !in Ids(cs)
    ensures r in Retire(b, cs).inflight
  {
    if |cs| > 0 {
      var before, c := cs[..|cs| - 1], cs[|cs| - 1];
      assert Ids(cs)[|cs| - 1] == c.userData;
      assert forall k :: 0 <= k < |before| ==> Ids(before)[k] == Ids(cs)[k];
      RetireLeaves(b, before, r);
      var rs := Retire(b, before).inflight;
      match Position(rs, c.userData)
      case None =>
      case Some(p) =>
        var i :| 0 <= i < |rs| && rs[i] == r;
        assert i != p;
        assert Remove(rs, p)[if i < p then i else i - 1] == r;
    }
  }

  lemma WaitAbandons(b: Bridge, arrivals: seq<Completion>, r: Request)
    requires Abandoned(b, r) && b.kernel.CanFinish(arrivals)
    ensures Abandoned(WaitAndRetire(b, arrivals), r)
  {
    var cs, room := b.kernel.cq + arrivals, |b.inflight|;
    assert multiset(Ids(arrivals))[r.userData] <= b.kernel.running[r.userData];
    assert Ids(cs) == Ids(b.kernel.cq) + Ids(arrivals);
    var taken, left := Taken(cs, room), LeftInQueue(cs, room);
    assert forall k :: 0 <= k < |taken| ==> Ids(taken)[k] == Ids(cs)[k];
    assert forall k :: 0 <= k < |left| ==> Ids(left)[k] == Ids(cs)[|cs| - |left| + k];
    var b1 := b.(kernel := b.kernel.Finish(arrivals).(cq := left));
    RetireLeaves(b1, taken, r);
    RetireKeepsKernel(b1, taken);
  }

  /** An abandoned request stays in flight through every legal continuation. */
  lemma {:induction false} AbandonedForEver(b: Bridge, r: Request, later: seq<Call>, dev: Device)
    requires Abandoned(b, r) && LegalRun(b, later, dev)
    ensures Abandoned(Run(b, later, dev), r)
  {
    if |later| > 0 {
      var before, c := later[..|later| - 1], later[|later| - 1];
      LegalBefore(b, later, dev);
      AbandonedForEver(b, r, before, dev);
      var b1 := WithHeads(Run(b, before, dev), c.heads);
      SubmitAllAbandons(b1, c.table, dev, c.env, r);
      var p := SubmitAll(b1, c.table, dev, c.env);
      if p.panicked.None? && |p.bridge.inflight| > 0 && c.env.wait.Some? {
        WaitAbandons(p.bridge, c.env.wait.value, r);
      }
    }
  }

  const FlushTable: seq<Desc> := [Desc(4, 0, 0, 0), Desc(4, 0, 0, 0)]

  const BothFinish: seq<Completion> := [Completion(1, 0), Completion(2, 0)]

  /** Two flushes; the kernel keeps the first entry although its submit failed, and both
      finish before the wait returns. */
  const StrandingCall := Call(
    [0, 1], FlushTable,
    Env(id => if id == 1 then SubmitFails else Accepted, Some(BothFinish)))

  /** Without the assumption, completions are discarded: the buffer has room for one, the
      unexpected one fills it, the other is consumed unseen. The entries pushed are then
      neither running nor queued nor retired, the second request stays in flight with nothing
      left in the kernel, and a wait with nothing new published cannot return. */
  lemma FailedSubmitStrandsRequest(dev: Device)
    ensures var b := Run(Fresh, [StrandingCall], dev);
            && LegalRun(Fresh, [StrandingCall], dev)
            && b.inflight == [Request(2, 1, [], 0)]
            && b.kernel.running == multiset{} && b.kernel.cq == []
            && |b.kernel.log| == 2 && b.retired == [] && !EntriesAccounted(b)
            && Abandoned(b, Request(2, 1, [], 0))
            && (forall arrivals :: !b.kernel.CanFinish(arrivals))
  {
    OneCall(Fresh, StrandingCall, dev);
    StrandingSubmits(dev);
    var b := SubmitAll(WithHeads(Fresh, StrandingCall.heads), FlushTable, dev, StrandingCall.env).bridge;
    StrandingWait(b);
    NothingRuns(WaitAndRetire(b, BothFinish).kernel);
    NothingRetired(WaitAndRetire(b, BothFinish));
  }

  /** The wait of that call. */
  lemma StrandingWait(b: Bridge)
    requires b.inflight == [Request(2, 1, [], 0)] && b.retired == [] && |b.kernel.log| == 2
    requires b.kernel.running == multiset{1, 2} && b.kernel.cq == []
    ensures b.kernel.CanFinish(BothFinish)
    ensures var b' := WaitAndRetire(b, BothFinish);
            b' == b.(kernel := b.kernel.(running := multiset{}))
  {
    assert Ids(BothFinish) == [1, 2];
    var done := b.kernel.Finish(BothFinish);
    assert done.cq == BothFinish;
    assert Taken(done.cq, 1) == [BothFinish[0]] && LeftInQueue(done.cq, 1) == [];
    var b1 := b.(kernel := done.(cq := []));
    assert Retire(b1, [BothFinish[0]]) == RetireOne(Retire(b1, []), BothFinish[0]) == b1;
  }

  lemma NothingRetired(b: Bridge)
    requires |b.kernel.log| > 0 && b.retired == [] && b.kernel.running == multiset{} && b.kernel.cq == []
    ensures !EntriesAccounted(b)
  {
    assert |multiset(LogIds(b.kernel.log))| > 0;
  }

  lemma NothingRuns(k: Kernel)
    requires k.running == multiset{} && k.cq == []
    ensures forall arrivals :: !k.CanFinish(arrivals)
  {
    forall arrivals ensures !k.CanFinish(arrivals) {
      if multiset(Ids(arrivals)) <= multiset{} { SubMultisetSize(multiset(Ids(arrivals)), multiset{}); }
    }
  }

  /** Whatever the guest publishes later and however the kernel goes on, that request is never
      answered: its head never comes back to the guest. */
  lemma StrandedForEver(later: seq<Call>, dev: Device)
    requires LegalRun(Run(Fresh, [StrandingCall], dev), later, dev)
    ensures Request(2, 1, [], 0) in Run(Run(Fresh, [StrandingCall], dev), later, dev).inflight
  {
    FailedSubmitStrandsRequest(dev);
    AbandonedForEver(Run(Fresh, [StrandingCall], dev), Request(2, 1, [], 0), later, dev);
  }

  lemma StrandingSubmits(dev: Device)
    ensures var p := SubmitAll(WithHeads(Fresh, StrandingCall.heads), FlushTable, dev, StrandingCall.env);
            && p.panicked.None?
            && p.bridge.inflight == [Request(2, 1, [], 0)] && p.bridge.retired == []
            && p.bridge.nextUserData == 3
            && p.bridge.kernel.running == multiset{1, 2} && p.bridge.kernel.cq == []
            && |p.bridge.kernel.log| == 2
  {
    var env := StrandingCall.env;
    var b0 := WithHeads(Fresh, StrandingCall.heads);
    FlushPlans(dev);
    var b1 := Next(b0, FlushTable, dev, env);
    var b2 := Next(b1, FlushTable, dev, env);
    assert !PanicsOn(FlushTable, dev, 0) && !PanicsOn(FlushTable, dev, 1);
    assert SubmitAll(b2, FlushTable, dev, env) == Phase1(b2, None);
    assert SubmitAll(b1, FlushTable, dev, env) == Phase1(b2, None);
    assert SubmitAll(b0, FlushTable, dev, env) == Phase1(b2, None);
  }

  lemma FlushPlans(dev: Device)
    ensures forall head: U16 :: head < 2 ==>
              |Chain(FlushTable, head)| == 1 && PlanFor(Chain(FlushTable, head), dev) == Submit(Flush, [], 0)
  {
    forall head: U16 | head < 2
      ensures |Chain(FlushTable, head)| == 1 && PlanFor(Chain(FlushTable, head), dev) == Submit(Flush, [], 0)
    {
      assert LinkPath(FlushTable, head, 3) == [head];
      assert Chain(FlushTable, head) == [FlushTable[head]];
    }
  }

  // ---------------------------------------------------------------------------
  // ... and nothing else: any other request can still be answered
  // ---------------------------------------------------------------------------

  /** A call that publishes n flushes, all accepted, so that the wait has room for n more. */
  function RoomyCall(n: nat, arrivals: seq<Completion>): Call {
    Call(seq(n, _ => 0), FlushTable, Env(_ => Accepted, Some(arrivals)))
  }

  /** What submitting only adds to. */
  ghost predicate Grown(b: Bridge, b': Bridge, n: nat) {
    && |b'.inflight| >= |b.inflight| + n
    && (forall r :: r in b.inflight ==> r in b'.inflight)
    && b.kernel.running <= b'.kernel.running && b'.kernel.cq == b.kernel.cq
  }

  lemma FlushNext(b: Bridge, dev: Device, env: Env)
    requires b.fifo.Backlog() > 0 && Increasing(b.inflight, b.nextUserData) && env.verdict == (_ => Accepted)
    ensures var head, b' := b.fifo.published[b.fifo.consumed], Next(b, FlushTable, dev, env);
            && !PanicsOn(FlushTable, dev, head) && Increasing(b'.inflight, b'.nextUserData)
            && Grown(b, b', if head == 0 then 1 else 0)
  {
    FlushPlans(dev);
  }

  lemma {:induction false} FlushesGrow(b: Bridge, dev: Device, env: Env, n: nat)
    requires Increasing(b.inflight, b.nextUserData) && env.verdict == (_ => Accepted)
    requires n <= b.fifo.Backlog()
    requires forall i :: |b.fifo.published| - n <= i < |b.fifo.published| ==> b.fifo.published[i] == 0
    ensures var p := SubmitAll(b, FlushTable, dev, env);
            p.panicked.None? && Grown(b, p.bridge, n) && Increasing(p.bridge.inflight, p.bridge.nextUserData)
    decreases b.fifo.Backlog()
  {
    if b.fifo.Backlog() > 0 {
      FlushNext(b, dev, env);
      FlushesGrow(Next(b, FlushTable, dev, env), dev, env, if n < b.fifo.Backlog() then n else n - 1);
    }
  }

  lemma {:induction false} RetireRemoves(b: Bridge, cs: seq<Completion>, r: Request)
    requires UniqueIds(b.inflight) && r in b.inflight && r.userData in Ids(cs)
    ensures r !in Retire(b, cs).inflight
  {
    var before, c := cs[..|cs| - 1], cs[|cs| - 1];
    assert Ids(cs) == Ids(before) + [c.userData];
    RetireKeepsUnique(b, before);
    if r.userData in Ids(before) {
      RetireRemoves(b, before, r);
    } else {
      RetireLeaves(b, before, r);
    }
  }

  lemma {:induction false} RetireKeepsUnique(b: Bridge, cs: seq<Completion>)
    requires UniqueIds(b.inflight)
    ensures UniqueIds(Retire(b, cs).inflight)
  {
    if |cs| > 0 { RetireKeepsUnique(b, cs[..|cs| - 1]); }
  }

  lemma EnoughArrive(b: Bridge, b': Bridge, arrivals: seq<Completion>, r: Request)
    requires Grown(b, b', |b.kernel.cq| + 1)
    requires r.userData in b.kernel.running || r.userData in Ids(b.kernel.cq)
    requires Ids(arrivals) == if r.userData in b.kernel.running then [r.userData] else []
    ensures b'.kernel.CanFinish(arrivals) && |b'.kernel.cq| + |arrivals| <= |b'.inflight|
  {
    assert multiset([r.userData]) == multiset{r.userData};
    assert multiset([]) <= b'.kernel.running;
  }

  lemma WaitAnswers(b: Bridge, arrivals: seq<Completion>, r: Request)
    requires UniqueIds(b.inflight) && r in b.inflight && |b.kernel.cq| + |arrivals| <= |b.inflight|
    requires r.userData in Ids(b.kernel.cq) || r.userData in Ids(arrivals)
    ensures r !in WaitAndRetire(b, arrivals).inflight
  {
    var cs := b.kernel.cq + arrivals;
    assert Ids(cs) == Ids(b.kernel.cq) + Ids(arrivals);
    RetireRemoves(b.(kernel := b.kernel.Finish(arrivals).(cq := [])), cs, r);
  }

  /** A request whose operation still runs or waits in the queue is answered by some legal
      continuation. */
  lemma CanBeAnswered(b: Bridge, r: Request, dev: Device) returns (later: seq<Call>)
    requires b.fifo.consumed <= |b.fifo.published| && Increasing(b.inflight, b.nextUserData)
    requires r in b.inflight && (r.userData in b.kernel.running || r.userData in Ids(b.kernel.cq))
    ensures LegalRun(b, later, dev) && r !in Run(b, later, dev).inflight
  {
    var arrivals := if r.userData in b.kernel.running then [Completion(r.userData, 0)] else [];
    var n := |b.kernel.cq| + 1;
    var c := RoomyCall(n, arrivals);
    later := [c];
    OneCall(b, c, dev);
    var b0 := WithHeads(b, c.heads);
    FlushesGrow(b0, dev, c.env, n);
    var b1 := SubmitAll(b0, c.table, dev, c.env).bridge;
    assert Ids(arrivals) == if r.userData in b.kernel.running then [r.userData] else [];
    EnoughArrive(b, b1, arrivals, r);
    WaitAnswers(b1, arrivals, r);
  }

  /** In every run, a request in flight is never answered, whatever comes, if and only if the
      kernel has lost its operation. */
  lemma NeverAnsweredIff(calls: seq<Call>, dev: Device, r: Request)
    requires r in Run(Fresh, calls, dev).inflight
    ensures var b := Run(Fresh, calls, dev);
            (forall later :: LegalRun(b, later, dev) ==> r in Run(b, later, dev).inflight) <==> Abandoned(b, r)
  {
    var b := Run(Fresh, calls, dev);
    HeadsAreConserved(calls, dev);
    InflightIncreases(calls, dev);
    if Abandoned(b, r) {
      forall later | LegalRun(b, later, dev) ensures r in Run(b, later, dev).inflight {
        AbandonedForEver(b, r, later, dev);
      }
    } else {
      var later := CanBeAnswered(b, r, dev);
    }
  }

  /** A write of one sector whose entry the kernel keeps although its submit failed. */
  const SectorTable: seq<Desc> := [Desc(1, 16, 1, 1), Desc(0x42, 512, 1, 2), Desc(0, 1, 2, 0)]

  lemma SectorPlan(dev: Device)
    requires dev.capacitySectors >= 1
    ensures var p := PlanFor(Chain(SectorTable, 0), dev);
            p.Submit? && p.op.Write? && OpLen(p.op) == 512
  {
    var t := SectorTable;
    assert LinkPath(t, 2, 2) == [2];
    assert LinkPath(t, 1, 3) == [1, 2];
    assert LinkPath(t, 0, 4) == [0, 1, 2];
    assert Chain(t, 0) == t;
    var ds := DataDescs(t);
    assert ds == [t[1]] && ds[..0] == [];
    assert SumLens([]) == 0 && SumLens(ds) == 512;
  }

  /** The buffer is gone when the call returns, while the write it belongs to is running. */
  lemma FailedSubmitDropsBuffer(dev: Device, wait: Option<seq<Completion>>)
    requires dev.capacitySectors >= 1
    ensures var b := Run(Fresh, [Call([0], SectorTable, Env(_ => SubmitFails, wait))], dev);
            && |b.kernel.log| == 1 && b.kernel.log[0].op.Write? && OpLen(b.kernel.log[0].op) == 512
            && b.kernel.log[0].userData in b.kernel.running
            && (forall r :: r in b.inflight ==> !Backs(r, b.kernel.log[0]))
  {
    var c := Call([0], SectorTable, Env(_ => SubmitFails, wait));
    assert [c][..0] == [];
    SectorPlan(dev);
    var b := WithHeads(Fresh, c.heads);
    assert b.fifo.published == [0];
    var b1 := Next(b, c.table, dev, c.env);
    assert !PanicsOn(c.table, dev, 0);
    assert SubmitAll(b1, c.table, dev, c.env) == Phase1(b1, None);
    assert SubmitAll(b, c.table, dev, c.env) == Phase1(b1, None);
  }

  // ---------------------------------------------------------------------------
  // What an oversized request breaks
  // ---------------------------------------------------------------------------

  /** A write whose two data descriptors announce 2^31 bytes each. */
  const OversizedTable: seq<Desc> :=
    [Desc(1, 16, 1, 1), Desc(0, 0x8000_0000, 1, 2), Desc(0, 0x8000_0000, 1, 3), Desc(0, 1, 2, 0)]

  lemma OversizedPanics(dev: Device)
    ensures PanicsOn(OversizedTable, dev, 0)
  {
    var t := OversizedTable;
    assert LinkPath(t, 3, 2) == [3];
    assert LinkPath(t, 2, 3) == [2, 3];
    assert LinkPath(t, 1, 4) == [1, 2, 3];
    assert LinkPath(t, 0, 5) == [0, 1, 2, 3];
    assert Chain(t, 0) == t;
    var ds := DataDescs(t);
    assert ds == [t[1], t[2]];
    assert ds[..1] == [t[1]] && ds[..1][..0] == [];
    assert SumLens([]) == 0 && SumLens(ds[..1]) == 0x8000_0000;
    assert SumLens(ds) == 0x1_0000_0000;
  }

  /** Its head is popped and then neither answered nor in flight, in either build. */
  lemma OversizedWriteIsLost(dev: Device, env: Env)
    ensures var b := Run(Fresh, [Call([0], OversizedTable, env)], dev);
            b.fifo.Backlog() == 0 && |b.fifo.published| == 1 && b.fifo.used == [] && b.inflight == []
  {
    var c := Call([0], OversizedTable, env);
    assert [c][..0] == [];
    OversizedPanics(dev);
    var b := WithHeads(Fresh, c.heads);
    assert b.fifo.published == [0];
    assert SubmitAll(b, c.table, dev, env) == Phase1(Next(b, c.table, dev, env), Some(0));
  }
}
