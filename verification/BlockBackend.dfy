/** The backend object: a virtqueue, an I/O engine and the list of requests in flight. */
module BlockBackend {
  import opened Common
  import opened Arith
  import opened VirtQueue
  import opened IoEngine
  import opened BlockRequest
  import opened BlockBridge

  class VirtioBlkIoBackend {
    const queue: SplitVirtqueue
    const engine: IoEngine
    const fdIndex: nat
    const dev: Device
    var inflight: seq<Request>
    var nextUserData: nat
    ghost var issued: seq<Request>
    ghost var retired: seq<Request>

    ghost predicate Valid()
      reads this, queue, queue.availRing, queue.usedRing, engine
    {
      && queue.Valid()
      && fdIndex in engine.files
      && engine.submittedTotal == |issued|
    }

    ghost function View(): Bridge
      reads this, queue, engine
    {
      Bridge(queue.fifo, inflight, nextUserData, engine.kernel, issued, retired)
    }

    constructor (queueSize: U16, capacitySectors: nat, overflowChecks: bool)
      requires IsPowerOfTwo(queueSize)
      ensures Valid() && View() == Fresh && dev == Device(capacitySectors, overflowChecks)
      ensures fresh(queue) && fresh(queue.usedRing) && fresh(queue.availRing) && fresh(engine)
    {
      var e := new IoEngine();
      var fd := e.RegisterFile();
      engine, fdIndex := e, fd;
      queue := new SplitVirtqueue(queueSize);
      dev := Device(capacitySectors, overflowChecks);
      inflight, nextUserData := [], 1;
      issued, retired := [], [];
    }

    /** The end of each submitting branch: answer at once on an error, else track it. */
    method Track(head: U16, id: nat, op: IoOp, buffer: seq<U8>, total: U32, verdict: Verdict)
      requires Valid()
      modifies this`inflight, this`issued, queue, queue.usedRing, engine
      ensures Valid()
      ensures queue.fifo == if verdict.Accepted? then old(queue.fifo)
                            else old(queue.fifo).PushUsed(UsedElem(head, 1))
      ensures engine.kernel == if verdict.RingFull? then old(engine.kernel)
                               else old(engine.kernel).Push(Sqe(op, id))
      ensures var added := if verdict.Accepted? then [Request(id, head, buffer, total)] else [];
              inflight == old(inflight) + added && issued == old(issued) + added
    {
      var r := engine.Submit(fdIndex, op, id, verdict);
      if r.Err? {
        queue.PushUsed(head, 1);
        return;
      }
      inflight := inflight + [Request(id, head, buffer, total)];
      issued := issued + [Request(id, head, buffer, total)];
    }

    /** Carries out what was decided for a head; only an empty chain takes no id. */
    method Execute(head: U16, empty: bool, plan: Plan, env: Env)
      requires Valid()
      modifies this`inflight, this`issued, this`nextUserData, queue, queue.usedRing, engine
      ensures Valid() && View() == Dispatch(old(View()), head, empty, plan, env)
    {
      var id := nextUserData;
      nextUserData := if empty then id else id + 1;
      match plan {
        case Reply(len) => queue.PushUsed(head, len);
        case Panic =>
        case Submit(op, buffer, total) => Track(head, id, op, buffer, total, env.verdict(id));
      }
    }

    /** One popped head, from its chain to an answer, a request in flight, or a panic. */
    method Handle(head: U16, env: Env) returns (panicked: bool)
      requires Valid()
      modifies this`inflight, this`issued, this`nextUserData, queue, queue.usedRing, engine
      ensures Valid()
      ensures var chain := Chain(queue.descTable[..], head);
              && View() == Dispatch(old(View()), head, |chain| == 0, PlanFor(chain, dev), env)
              && panicked == PanicsOn(queue.descTable[..], dev, head)
    {
      var chain := queue.WalkChain(head);
      if |chain| == 0 {
        Execute(head, true, Reply(0), env);
        return false;
      }
      var plan := DecideRequest(chain, dev);
      Execute(head, false, plan, env);
      panicked := plan.Panic?;
    }

    /** Phase 1: drain the available ring. */
    method SubmitPhase(env: Env) returns (panicked: bool)
      requires Valid()
      modifies this`inflight, this`issued, this`nextUserData, queue, queue.usedRing, engine
      ensures Valid()
      ensures var p := SubmitAll(old(View()), queue.descTable[..], dev, env);
              View() == p.bridge && panicked == p.panicked.Some?
    {
      ghost var table := queue.descTable[..];
      while true
        invariant Valid() && table == queue.descTable[..]
        invariant SubmitAll(View(), table, dev, env) == SubmitAll(old(View()), table, dev, env)
        decreases queue.fifo.Backlog()
      {
        ghost var before := View();
        var head := queue.PopAvail();
        if head.None? {
          return false;
        }
        assert before.fifo.Backlog() > 0;
        var bad := Handle(head.value, env);
        assert View() == Next(before, table, dev, env);
        if bad {
          return true;
        }
      }
    }

    /** One completion: the first request with its id, if there is one. */
    method RetireCompletion(c: Completion) returns (found: bool)
      requires Valid()
      modifies this`inflight, this`retired, queue, queue.usedRing
      ensures Valid() && View() == RetireOne(old(View()), c)
      ensures found == Position(old(inflight), c.userData).Some?
    {
      var pos := Position(inflight, c.userData);
      if pos.None? {
        return false;
      }
      var req := inflight[pos.value];
      inflight := Remove(inflight, pos.value);
      retired := retired + [req];
      var usedLen := if c.result >= 0 then req.totalLen else 0;
      queue.PushUsed(req.head, usedLen);
      found := true;
    }

    method RetireAll(seen: seq<Completion>) returns (processed: int)
      requires Valid()
      modifies this`inflight, this`retired, queue, queue.usedRing
      ensures Valid() && View() == Retire(old(View()), seen)
      ensures processed == |retired| - |old(retired)|
    {
      processed := 0;
      for k := 0 to |seen|
        invariant Valid()
        invariant View() == Retire(old(View()), seen[..k])
        invariant processed == |retired| - |old(retired)|
      {
        assert seen[..k + 1][..k] == seen[..k];
        var found := RetireCompletion(seen[k]);
        processed := processed + if found then 1 else 0;
      }
      assert seen[..|seen|] == seen;
    }

    /** A whole processing call; `None` is a panic caught at the boundary, otherwise the
        result is the number of requests answered from completions. */
    method ProcessQueueAsync(env: Env) returns (r: Option<int>)
      requires Valid() && Legal(View(), queue.descTable[..], dev, env)
      modifies this, queue, queue.usedRing, engine
      ensures Valid()
      ensures var p := Process(old(View()), queue.descTable[..], dev, env);
              && View() == p.bridge
              && (r.None? <==> p.panicked.Some?)
      ensures r.Some? ==> r.value == |retired| - |old(retired)|
    {
      var panicked := SubmitPhase(env);
      if panicked {
        return None;
      }
      var processed := 0;
      if |inflight| > 0 {
        var completions := new Completion[|inflight|](_ => Completion(0, 0));
        var n := engine.WaitCompletions(completions, env.wait);
        if n.Err? {
          return Some(processed);
        }
        processed := RetireAll(completions[..n.value]);
      }
      r := Some(processed);
    }
  }
}
