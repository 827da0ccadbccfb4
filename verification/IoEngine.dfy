/** The io_uring engine of vmcore over an abstract kernel: a set of running operations from
    which completions reach the completion queue in any order. */
module IoEngine {
  import opened Common

  datatype IoOp = Read(offset: nat, len: U32) | Write(offset: nat, data: seq<U8>) | Flush
  datatype Sqe = Sqe(op: IoOp, userData: nat)
  datatype Completion = Completion(userData: nat, result: int)

  /** What the kernel does with one submission: `RingFull` refuses the entry, `SubmitFails`
      keeps the pushed entry in the ring although the caller is told of an error. */
  datatype Verdict = Accepted | RingFull | SubmitFails

  datatype EngineError = FileNotRegistered | NoSqe | SubmitError
  datatype Result<+T> = Ok(value: T) | Err(error: EngineError)

  /** `log` holds every entry ever pushed. */
  datatype Kernel = Kernel(running: multiset<nat>, cq: seq<Completion>, log: seq<Sqe>)
  {
    function Push(sqe: Sqe): Kernel {
      this.(running := running + multiset{sqe.userData}, log := log + [sqe])
    }
    /** `arrivals` finish: they leave the running set and enter the completion queue. */
    function Finish(arrivals: seq<Completion>): Kernel {
      this.(running := running - multiset(Ids(arrivals)), cq := cq + arrivals)
    }
    /** A wait for one completion returns only when there is one to see. */
    ghost predicate CanFinish(arrivals: seq<Completion>) {
      multiset(Ids(arrivals)) <= running && |cq| + |arrivals| >= 1
    }
  }

  function Ids(cs: seq<Completion>): (ids: seq<nat>)
    ensures |ids| == |cs|
  {
    seq(|cs|, k requires 0 <= k < |cs| => cs[k].userData)
  }

  /** What a poll with room for `room` entries hands out ... */
  function Taken(cq: seq<Completion>, room: nat): (out: seq<Completion>)
    ensures |out| <= room
  {
    if |cq| <= room then cq else cq[..room]
  }

  /** ... and what it leaves: the entry that finds no room has already been consumed. */
  function LeftInQueue(cq: seq<Completion>, room: nat): seq<Completion> {
    if |cq| <= room then [] else cq[room + 1..]
  }

  /** A poll loses a completion exactly when the queue holds more than the buffer. */
  lemma PollLosesIff(cq: seq<Completion>, room: nat)
    ensures Taken(cq, room) + LeftInQueue(cq, room) == cq <==> |cq| <= room
    ensures |cq| > room ==> Taken(cq, room) + [cq[room]] + LeftInQueue(cq, room) == cq
  {
  }

  class IoEngine {
    var files: set<nat>
    var nextFileId: nat
    var inflight: nat
    var submittedTotal: nat
    var completedTotal: nat
    var kernel: Kernel

    constructor ()
      ensures files == {} && nextFileId == 0
      ensures inflight == submittedTotal == completedTotal == 0
      ensures kernel == Kernel(multiset{}, [], [])
    {
      files, nextFileId := {}, 0;
      inflight, submittedTotal, completedTotal := 0, 0, 0;
      kernel := Kernel(multiset{}, [], []);
    }

    method RegisterFile() returns (id: nat)
      modifies this`files, this`nextFileId
      ensures id == old(nextFileId) && nextFileId == id + 1 && files == old(files) + {id}
    {
      id := nextFileId;
      nextFileId := nextFileId + 1;
      files := files + {id};
    }

    /** submit_read, submit_write and submit_flush differ only in the operation they build. */
    method Submit(fd: nat, op: IoOp, userData: nat, verdict: Verdict) returns (r: Result<()>)
      modifies this`inflight, this`submittedTotal, this`kernel
      ensures r == if fd !in files then Err(FileNotRegistered)
                   else match verdict
                        case Accepted => Ok(())
                        case RingFull => Err(NoSqe)
                        case SubmitFails => Err(SubmitError)
      ensures kernel == if fd in files && !verdict.RingFull?
                        then old(kernel).Push(Sqe(op, userData)) else old(kernel)
      ensures inflight - old(inflight) == submittedTotal - old(submittedTotal) == (if r.Ok? then 1 else 0)
    {
      if fd !in files {
        return Err(FileNotRegistered);
      }
      if verdict.RingFull? {
        return Err(NoSqe);
      }
      kernel := kernel.Push(Sqe(op, userData));
      if verdict.SubmitFails? {
        return Err(SubmitError);
      }
      inflight := inflight + 1;
      submittedTotal := submittedTotal + 1;
      r := Ok(());
    }

    method PollCompletions(out: array<Completion>) returns (count: nat)
      modifies this`kernel, this`inflight, this`completedTotal, out
      ensures count <= out.Length && out[..count] == Taken(old(kernel.cq), out.Length)
      ensures out[count..] == old(out[..])[count..]
      ensures kernel == old(kernel).(cq := LeftInQueue(old(kernel.cq), out.Length))
      ensures completedTotal == old(completedTotal) + count
      ensures inflight == if old(inflight) >= count then old(inflight) - count else 0
    {
      count := 0;
      ghost var before := kernel.cq;
      while |kernel.cq| > 0
        invariant count <= out.Length && count <= |before|
        invariant out[..count] == before[..count]
        invariant out[count..] == old(out[..])[count..]
        invariant kernel == old(kernel).(cq := before[count..])
        invariant completedTotal == old(completedTotal) + count
        invariant inflight == if old(inflight) >= count then old(inflight) - count else 0
        decreases |kernel.cq|
      {
        var cqe := kernel.cq[0];
        kernel := kernel.(cq := kernel.cq[1..]);
        if count >= out.Length {
          break;
        }
        out[count] := cqe;
        count := count + 1;
        inflight := if inflight > 0 then inflight - 1 else 0;
        completedTotal := completedTotal + 1;
      }
    }

    /** `arrivals` is the kernel's choice; `None` is a failing submit_and_wait. */
    method WaitCompletions(out: array<Completion>, arrivals: Option<seq<Completion>>) returns (r: Result<nat>)
      requires arrivals.Some? ==> kernel.CanFinish(arrivals.value)
      modifies this`kernel, this`inflight, this`completedTotal, out
      ensures arrivals.None? ==> r == Err(SubmitError) && unchanged(this) && unchanged(out)
      ensures arrivals.Some? ==>
                var done := old(kernel).Finish(arrivals.value);
                && r.Ok? && r.value <= out.Length
                && out[..r.value] == Taken(done.cq, out.Length)
                && kernel == done.(cq := LeftInQueue(done.cq, out.Length))
                && completedTotal == old(completedTotal) + r.value
                && inflight == if old(inflight) >= r.value then old(inflight) - r.value else 0
    {
      if arrivals.None? {
        return Err(SubmitError);
      }
      kernel := kernel.Finish(arrivals.value);
      var n := PollCompletions(out);
      r := Ok(n);
    }
  }
}
