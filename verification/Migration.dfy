/** One asynchronous live migration of the compute service, as a goroutine whose steps
    interleave with cancellation and with anything else that happens to the VM. The model
    has one registered backend. */
module Migration {
  import opened Common

  datatype Phase = Pending | PreCheck | Transfer | Switchover | Completed | Failed

  datatype Status = Status(phase: Phase, progress: nat)

  datatype VM = VM(running: bool, node: string)

  /** The progress values reported during the transfer. */
  const TransferSteps: seq<nat> := [10, 30, 60, 90]

  /** Where the goroutine stands. */
  datatype Pc =
    | Spawned                  // about to look for the VM's backend
    | Found                    // backend found, about to read the VM
    | Seen(vm: VM)             // the VM as it was read, about to record the outcome of the checks
    | Checked                  // pre-check recorded
    | AtStep(i: nat)           // about to poll the context before transfer step i
    | Reporting(i: nat)        // polled, about to record step i
    | AtSwitch                 // about to poll the context for the last time
    | Switching                // about to record the switchover
    | Writing                  // about to write the VM's node
    | Finishing                // about to record completion
    | Ended

  /** `log` is every status recorded so far, in order; `cancelled` is the context's Done
      channel; `sawCancel` and `wrote` tell what this run observed and did. */
  datatype Run = Run(
    pc: Pc, target: string, status: Status, log: seq<Status>, vm: Option<VM>,
    cancelled: bool, sawCancel: bool, wrote: bool)
  {
    function Record(s: Status): Run { this.(status := s, log := log + [s]) }
    function Goto(next: Pc): Run { this.(pc := next) }
  }

  datatype Refusal = NotFound | NotRunning | SameNode
  datatype Start = Started(run: Run) | Refused(why: Refusal)

  /** MigrateLive: the synchronous checks, then the pending status and the goroutine. */
  function MigrateLive(vm: Option<VM>, target: string): Start {
    if vm.None? then Refused(NotFound)
    else if !vm.value.running then Refused(NotRunning)
    else if vm.value.node == target then Refused(SameNode)
    else
      var s := Status(Pending, 0);
      Started(Run(Spawned, target, s, [s], vm, false, false, false))
  }

  /** A request starts a migration exactly for a known VM that runs on another node, pending and
      with nothing done; every other request is told what is wrong, first things first. */
  lemma WhatARequestGets(vm: Option<VM>, target: string)
    ensures match MigrateLive(vm, target)
            case Started(r) =>
              && vm.Some? && vm.value.running && vm.value.node != target
              && r.pc == Spawned && r.target == target && r.vm == vm
              && r.status == Status(Pending, 0) && r.log == [r.status] && !r.cancelled && !r.sawCancel && !r.wrote
            case Refused(why) =>
              && (why == NotFound <==> vm.None?)
              && (why == NotRunning <==> vm.Some? && !vm.value.running)
              && (why == SameNode <==> vm.Some? && vm.value.running && vm.value.node == target)
  {
  }

  function Cancelled(r: Run): Run {
    r.Record(Status(Failed, r.status.progress)).(sawCancel := true).Goto(Ended)
  }

  /** One step of the goroutine. */
  function Advance(r: Run): (r': Run)
    ensures (r'.log == r.log && r'.status == r.status) || r'.log == r.log + [r'.status]
  {
    match r.pc
    case Spawned => r.Goto(if r.vm.None? then Ended else Found)
    case Found => r.Goto(if r.vm.None? then Ended else Seen(r.vm.value))
    case Seen(vm) =>
      if !vm.running then r.Record(Status(Failed, 0)).Goto(Ended)
      else if vm.node == r.target then r.Goto(Ended)
      else r.Record(Status(PreCheck, 0)).Goto(Checked)
    case Checked => r.Record(Status(Transfer, r.status.progress)).Goto(AtStep(0))
    case AtStep(i) => if r.cancelled then Cancelled(r) else r.Goto(Reporting(i))
    case Reporting(i) =>
      var progress := if i < |TransferSteps| then TransferSteps[i] else r.status.progress;
      r.Record(Status(r.status.phase, progress)).Goto(if i + 1 < |TransferSteps| then AtStep(i + 1) else AtSwitch)
    case AtSwitch => if r.cancelled then Cancelled(r) else r.Goto(Switching)
    case Switching => r.Record(Status(Switchover, 95)).Goto(Writing)
    case Writing =>
      r.(vm := if r.vm.Some? then Some(r.vm.value.(node := r.target)) else None, wrote := true).Goto(Finishing)
    case Finishing => r.Record(Status(Completed, 100)).Goto(Ended)
    case Ended => r
  }

  /** `Cancel` is CancelMigration; `Other` is any change of the VM by someone else. */
  datatype Step = Own | Cancel | Other(vm: Option<VM>)

  function Move(r: Run, s: Step): Run {
    match s
    case Own => Advance(r)
    case Cancel => if r.pc.Ended? then r else r.(cancelled := true)
    case Other(vm) => r.(vm := vm)
  }

  function After(r: Run, steps: seq<Step>): Run {
    if |steps| == 0 then r else Move(After(r, steps[..|steps| - 1]), steps[|steps| - 1])
  }

  // ---------------------------------------------------------------------------
  // What every step keeps
  // ---------------------------------------------------------------------------

  /** The order of phases: pending, pre-check, transfer, switchover, completed; failure comes
      from pending or transfer, and nothing follows an end. */
  predicate Follows(p: Phase, q: Phase) {
    || p == q
    || (p == Pending && (q == PreCheck || q == Failed))
    || (p == PreCheck && q == Transfer)
    || (p == Transfer && (q == Switchover || q == Failed))
    || (p == Switchover && q == Completed)
  }

  predicate Forward(a: Status, b: Status) {
    && Follows(a.phase, b.phase)
    && a.progress <= b.progress
    && (a.phase == Completed || a.phase == Failed ==> b == a)
  }

  ghost predicate LogForward(log: seq<Status>) {
    forall i :: 0 <= i < |log| - 1 ==> Forward(log[i], log[i + 1])
  }

  function StepProgress(i: nat): nat {
    if i == 0 then 0 else if i <= |TransferSteps| then TransferSteps[i - 1] else 90
  }

  /** Before the goroutine has recorded anything. */
  predicate Checking(pc: Pc) { pc.Spawned? || pc.Found? || pc.Seen? }

  /** The status that goes with each program point. */
  predicate StatusAt(r: Run) {
    match r.pc
    case Spawned => r.status == Status(Pending, 0)
    case Found => r.status == Status(Pending, 0)
    case Seen(_) => r.status == Status(Pending, 0)
    case Checked => r.status == Status(PreCheck, 0)
    case AtStep(i) => i < |TransferSteps| && r.status == Status(Transfer, StepProgress(i))
    case Reporting(i) => i < |TransferSteps| && r.status == Status(Transfer, StepProgress(i))
    case AtSwitch => r.status == Status(Transfer, 90)
    case Switching => r.status == Status(Transfer, 90)
    case Writing => r.status == Status(Switchover, 95)
    case Finishing => r.status == Status(Switchover, 95)
    case Ended => r.status.phase == Pending || r.status.phase == Failed || r.status == Status(Completed, 100)
  }

  ghost predicate Inv(r: Run) {
    && |r.log| > 0 && r.log[|r.log| - 1] == r.status
    && LogForward(r.log)
    && StatusAt(r)
    && (r.wrote <==> r.pc.Finishing? || (r.pc.Ended? && r.status.phase == Completed))
    && (r.sawCancel ==> r.cancelled && r.pc.Ended? && r.status.phase == Failed)
    && (r.pc.Ended? && r.status.phase == Failed && !r.sawCancel ==> Status(PreCheck, 0) !in r.log)
    && (Checking(r.pc) || (r.pc.Ended? && r.status.phase == Pending) ==> r.log == [Status(Pending, 0)])
  }

  lemma LogOne(log: seq<Status>, s: Status)
    requires LogForward(log) && |log| > 0 && Forward(log[|log| - 1], s)
    ensures LogForward(log + [s])
  {
    var log' := log + [s];
    forall i | 0 <= i < |log'| - 1 ensures Forward(log'[i], log'[i + 1]) {
      if i < |log| - 1 { assert log'[i] == log[i] && log'[i + 1] == log[i + 1]; }
    }
  }

  lemma AdvanceForward(r: Run)
    requires StatusAt(r)
    ensures r.pc.Ended? || Forward(r.status, Advance(r).status)
  {
  }

  lemma AdvanceKeeps(r: Run)
    requires Inv(r)
    ensures Inv(Advance(r))
  {
    var r' := Advance(r);
    AdvanceForward(r);
    if r'.log != r.log { LogOne(r.log, r'.status); }
  }

  lemma {:induction false} EveryStepKeeps(r: Run, steps: seq<Step>)
    requires Inv(r)
    ensures Inv(After(r, steps))
  {
    if |steps| > 0 {
      EveryStepKeeps(r, steps[..|steps| - 1]);
      AdvanceKeeps(After(r, steps[..|steps| - 1]));
    }
  }

  lemma StartKeeps(vm: Option<VM>, target: string)
    ensures MigrateLive(vm, target).Started? ==> Inv(MigrateLive(vm, target).run)
  {
  }

  // ---------------------------------------------------------------------------
  // The guarantees
  // ---------------------------------------------------------------------------

  lemma {:induction false} ForwardChain(log: seq<Status>, i: nat, j: nat)
    requires LogForward(log) && i <= j < |log|
    ensures log[i].progress <= log[j].progress
    ensures log[i].phase == Completed || log[i].phase == Failed ==> log[j] == log[i]
    decreases j
  {
    if i < j {
      ForwardChain(log, i, j - 1);
      assert Forward(log[j - 1], log[j - 1 + 1]);
    }
  }

  /** What a run that completes records, from first to last. */
  const Plan: seq<Status> := [
    Status(Pending, 0), Status(PreCheck, 0), Status(Transfer, 0), Status(Transfer, 10), Status(Transfer, 30),
    Status(Transfer, 60), Status(Transfer, 90), Status(Switchover, 95), Status(Completed, 100)]

  /** How much of the plan is recorded at a program point before the end. */
  function Recorded(pc: Pc): nat {
    match pc
    case Spawned => 1
    case Found => 1
    case Seen(_) => 1
    case Checked => 2
    case AtStep(i) => 3 + i
    case Reporting(i) => 3 + i
    case AtSwitch => 7
    case Switching => 7
    case Writing => 8
    case Finishing => 8
    case Ended => 9
  }

  ghost predicate StartOfPlan(log: seq<Status>) {
    |log| <= |Plan| && forall i :: 0 <= i < |log| ==> log[i] == Plan[i]
  }

  /** A part of the plan up to the last poll, and then a failure at the progress reached. */
  ghost predicate BrokenOff(log: seq<Status>) {
    var n := |log| - 1;
    1 <= n <= 7 && StartOfPlan(log[..n]) && log[n] == Status(Failed, Plan[n - 1].progress)
  }

  ghost predicate OnPlan(r: Run) {
    if r.pc.Ended? then StartOfPlan(r.log) || BrokenOff(r.log)
    else StartOfPlan(r.log) && |r.log| == Recorded(r.pc)
  }

  predicate AlwaysRecords(pc: Pc) {
    pc.Checked? || pc.Reporting? || pc.Switching? || pc.Finishing?
  }

  lemma RecordsNext(r: Run)
    requires StatusAt(r) && AlwaysRecords(r.pc)
    ensures var n, r' := Recorded(r.pc), Advance(r);
            1 <= n <= 8 && r'.log == r.log + [Plan[n]] && Recorded(r'.pc) == n + 1
  {
  }

  lemma StatusFromPlan(r: Run)
    requires StatusAt(r) && !r.pc.Ended?
    ensures 1 <= Recorded(r.pc) <= 8 && r.status == Plan[Recorded(r.pc) - 1]
  {
  }

  lemma ChecksOrPolls(r: Run)
    requires StatusAt(r) && !r.pc.Ended? && !AlwaysRecords(r.pc)
    ensures var n, r' := Recorded(r.pc), Advance(r);
            || (r'.log == r.log && (r'.pc.Ended? || Recorded(r'.pc) == n))
            || (r'.log == r.log + [Status(PreCheck, 0)] && n == 1 && Recorded(r'.pc) == 2)
            || (r'.log == r.log + [Status(Failed, r.status.progress)] && r'.pc.Ended? && n <= 7)
  {
  }

  /** A step records nothing, the next entry of the plan, or a failure that ends the run. */
  lemma AdvanceRecords(r: Run)
    requires StatusAt(r) && !r.pc.Ended?
    ensures var n, r' := Recorded(r.pc), Advance(r);
            && 1 <= n <= 8
            && (|| (r'.log == r.log && (r'.pc.Ended? || Recorded(r'.pc) == n))
                || (r'.log == r.log + [Plan[n]] && Recorded(r'.pc) == n + 1)
                || (r'.log == r.log + [Status(Failed, Plan[n - 1].progress)] && r'.pc.Ended? && n <= 7))
  {
    StatusFromPlan(r);
    if AlwaysRecords(r.pc) { RecordsNext(r); } else { ChecksOrPolls(r); }
  }

  lemma AdvanceOnPlan(r: Run)
    requires StatusAt(r) && OnPlan(r)
    ensures OnPlan(Advance(r))
  {
    if !r.pc.Ended? {
      AdvanceRecords(r);
      var n, log' := |r.log|, Advance(r).log;
      if |log'| == n + 1 { assert log'[..n] == r.log; }
    }
  }

  lemma {:induction false} EveryStepOnPlan(r: Run, steps: seq<Step>)
    requires Inv(r) && OnPlan(r)
    ensures OnPlan(After(r, steps))
  {
    if |steps| > 0 {
      EveryStepOnPlan(r, steps[..|steps| - 1]);
      EveryStepKeeps(r, steps[..|steps| - 1]);
      AdvanceOnPlan(After(r, steps[..|steps| - 1]));
    }
  }

  predicate PlannedProgress(s: Status) { s.progress in [0, 10, 30, 60, 90, 95, 100] }

  lemma PlanProgress(log: seq<Status>)
    requires StartOfPlan(log) || BrokenOff(log)
    ensures forall s :: s in log ==> PlannedProgress(s)
  {
    assert forall i :: 0 <= i < |Plan| ==> PlannedProgress(Plan[i]);
    if BrokenOff(log) {
      var n := |log| - 1;
      assert forall i :: 0 <= i < n ==> log[i] == log[..n][i] == Plan[i];
    }
  }

  /** The log of every run is a beginning of the plan, or one broken off by a failure; so no
      progress outside the plan is ever recorded, and a run that completes has recorded all
      of it. */
  lemma RecordsThePlan(vm: Option<VM>, target: string, steps: seq<Step>)
    requires MigrateLive(vm, target).Started?
    ensures var r := After(MigrateLive(vm, target).run, steps);
            && (StartOfPlan(r.log) || BrokenOff(r.log))
            && (r.status.phase == Completed <==> r.log == Plan)
            && (forall s :: s in r.log ==> PlannedProgress(s))
  {
    var start := MigrateLive(vm, target).run;
    StartKeeps(vm, target);
    EveryStepKeeps(start, steps);
    EveryStepOnPlan(start, steps);
    PlanProgress(After(start, steps).log);
    CompletedLog(After(start, steps).log);
  }

  lemma CompletedLog(log: seq<Status>)
    requires |log| > 0 && (StartOfPlan(log) || BrokenOff(log))
    ensures log[|log| - 1].phase == Completed <==> log == Plan
  {
  }

  /** In every interleaving with cancellation and other changes to the VM: each recorded
      phase follows from the one before, progress never decreases, an end is final, a run
      that recorded its pre-check and ended is completed or failed, and a run that observed
      the cancellation failed and never wrote the node. */
  lemma MigrationIsOrderly(vm: Option<VM>, target: string, steps: seq<Step>)
    requires MigrateLive(vm, target).Started?
    ensures var r := After(MigrateLive(vm, target).run, steps);
            && LogForward(r.log)
            && (forall i, j :: 0 <= i < j < |r.log| ==> r.log[i].progress <= r.log[j].progress)
            && (forall s :: s in r.log ==> PlannedProgress(s))
            && (r.pc.Ended? && Status(PreCheck, 0) in r.log ==>
                  r.status.phase == Completed || r.status.phase == Failed)
            && (r.sawCancel ==> r.cancelled && r.status.phase == Failed && !r.wrote)
            && (r.pc.Ended? ==> (r.wrote <==> r.status == Status(Completed, 100)))
  {
    StartKeeps(vm, target);
    EveryStepKeeps(MigrateLive(vm, target).run, steps);
    RecordsThePlan(vm, target, steps);
    var r := After(MigrateLive(vm, target).run, steps);
    forall i, j | 0 <= i < j < |r.log| ensures r.log[i].progress <= r.log[j].progress {
      ForwardChain(r.log, i, j);
    }
  }

  /** Program points before the last poll: a cancellation will still be seen, unless the run
      ends by its own checks first. */
  predicate Cancellable(pc: Pc) {
    Checking(pc) || pc.Checked? || pc.AtStep? || pc.Reporting? || pc.AtSwitch?
  }

  predicate PastLastPoll(pc: Pc) {
    pc.Switching? || pc.Writing? || pc.Finishing?
  }

  /** A cancellation before the last poll, from the request on, decides the run: it never
      writes the node and ends failed or left pending, and failed if it recorded its
      pre-check, whatever happens next ... */
  lemma {:induction false} EarlyCancelWins(r: Run, steps: seq<Step>)
    requires Inv(r) && r.cancelled && Cancellable(r.pc)
    ensures var r' := After(r, steps);
            || (r'.cancelled && Cancellable(r'.pc) && !r'.wrote)
            || (&& r'.pc.Ended? && !r'.wrote
                && (r'.status.phase == Failed || r'.status.phase == Pending)
                && (Status(PreCheck, 0) in r'.log ==> r'.sawCancel && r'.status.phase == Failed))
  {
    if |steps| > 0 {
      EarlyCancelWins(r, steps[..|steps| - 1]);
      EveryStepKeeps(r, steps[..|steps| - 1]);
    }
  }

  /** ... and one after the last poll changes nothing: the run completes. */
  lemma {:induction false} LateCancelIgnored(r: Run, steps: seq<Step>)
    requires Inv(r) && PastLastPoll(r.pc)
    ensures var r' := After(r, steps);
            PastLastPoll(r'.pc) || (r'.pc.Ended? && r'.status == Status(Completed, 100) && r'.wrote)
  {
    if |steps| > 0 {
      LateCancelIgnored(r, steps[..|steps| - 1]);
      EveryStepKeeps(r, steps[..|steps| - 1]);
    }
  }

  /** Own steps left, at most. */
  function Remaining(pc: Pc): nat {
    match pc
    case Spawned => 16
    case Found => 15
    case Seen(_) => 14
    case Checked => 13
    case AtStep(i) => if i < 4 then 12 - 2 * i else 5
    case Reporting(i) => if i < 4 then 11 - 2 * i else 5
    case AtSwitch => 4
    case Switching => 3
    case Writing => 2
    case Finishing => 1
    case Ended => 0
  }

  function OwnSteps(steps: seq<Step>): nat {
    if |steps| == 0 then 0 else OwnSteps(steps[..|steps| - 1]) + if steps[|steps| - 1].Own? then 1 else 0
  }

  /** Every run ends: sixteen steps of the goroutine suffice under any interleaving. */
  lemma AdvanceShortens(r: Run)
    requires StatusAt(r)
    ensures r.pc.Ended? || Remaining(Advance(r).pc) < Remaining(r.pc)
  {
  }

  lemma {:induction false} EveryRunEnds(r: Run, steps: seq<Step>)
    requires Inv(r)
    ensures var left := Remaining(After(r, steps).pc);
            left == 0 || left <= Remaining(r.pc) - OwnSteps(steps)
    ensures OwnSteps(steps) >= 16 ==> After(r, steps).pc.Ended?
  {
    if |steps| > 0 {
      EveryRunEnds(r, steps[..|steps| - 1]);
      EveryStepKeeps(r, steps[..|steps| - 1]);
      AdvanceShortens(After(r, steps[..|steps| - 1]));
    }
  }

  /** Once past its own checks, a run is pending for good or never again. */
  lemma {:induction false} PendingIsDecided(r: Run, steps: seq<Step>)
    requires Inv(r) && !Checking(r.pc)
    ensures !Checking(After(r, steps).pc)
    ensures After(r, steps).status.phase == Pending <==> r.status.phase == Pending
  {
    if |steps| > 0 {
      PendingIsDecided(r, steps[..|steps| - 1]);
      EveryStepKeeps(r, steps[..|steps| - 1]);
    }
  }

  lemma {:induction false} Split(r: Run, steps: seq<Step>, k: nat)
    requires k <= |steps|
    ensures After(r, steps) == After(After(r, steps[..k]), steps[k..])
    decreases |steps|
  {
    if k == |steps| {
      assert steps[..k] == steps;
    } else {
      var front := steps[..|steps| - 1];
      Split(r, front, k);
      assert front[..k] == steps[..k] && steps[k..][..|steps| - k - 1] == front[k..];
    }
  }

  ghost predicate NoneOwn(steps: seq<Step>) {
    forall j :: 0 <= j < |steps| ==> !steps[j].Own?
  }

  /** Without a step of its own the goroutine stands still. */
  lemma {:induction false} StandsStill(r: Run, steps: seq<Step>)
    requires NoneOwn(steps)
    ensures var r' := After(r, steps);
            r'.pc == r.pc && r'.status == r.status && r'.target == r.target
  {
    if |steps| > 0 { StandsStill(r, steps[..|steps| - 1]); }
  }

  /** From own step k to own step n, with none in between. */
  lemma NextOwn(r: Run, steps: seq<Step>, k: nat, n: nat)
    requires k < n <= |steps| && steps[k].Own? && NoneOwn(steps[k + 1..n])
    ensures var first, r' := Advance(After(r, steps[..k])), After(r, steps[..n]);
            r'.pc == first.pc && r'.status == first.status && r'.target == first.target
  {
    assert steps[..k + 1][..k] == steps[..k];
    assert steps[..n][..k + 1] == steps[..k + 1] && steps[..n][k + 1..] == steps[k + 1..n];
    Split(r, steps[..n], k + 1);
    StandsStill(After(r, steps[..k + 1]), steps[k + 1..n]);
  }

  /** So a cancellation requested at any point before the last poll takes effect, and one requested
      after the end changes nothing at all. */
  lemma CancelTakesEffect(vm: Option<VM>, target: string, before: seq<Step>, later: seq<Step>)
    requires MigrateLive(vm, target).Started?
    ensures var start := MigrateLive(vm, target).run;
            var r, r' := After(start, before), After(start, before + [Cancel] + later);
            && (Cancellable(r.pc) ==> !r'.wrote && r'.status.phase !in {Switchover, Completed})
            && (Cancellable(r.pc) && r'.pc.Ended? ==> r'.status.phase in {Failed, Pending})
            && (r.pc.Ended? ==> After(start, before + [Cancel]) == r)
  {
    var start := MigrateLive(vm, target).run;
    StartKeeps(vm, target);
    EveryStepKeeps(start, before);
    CancelBetween(start, before, later);
    if Cancellable(After(start, before).pc) { NeverSwitches(Move(After(start, before), Cancel), later); }
  }

  lemma CancelBetween(r: Run, before: seq<Step>, later: seq<Step>)
    ensures After(r, before + [Cancel]) == Move(After(r, before), Cancel)
    ensures After(r, before + [Cancel] + later) == After(Move(After(r, before), Cancel), later)
  {
    var steps, n := before + [Cancel] + later, |before| + 1;
    assert (before + [Cancel])[..|before|] == before && steps[..n] == before + [Cancel] && steps[n..] == later;
    Split(r, steps, n);
  }

  lemma NeverSwitches(r: Run, later: seq<Step>)
    requires Inv(r) && r.cancelled && Cancellable(r.pc)
    ensures var r' := After(r, later);
            && !r'.wrote && r'.status.phase !in {Switchover, Completed}
            && (r'.pc.Ended? ==> r'.status.phase in {Failed, Pending})
  {
    EarlyCancelWins(r, later);
    EveryStepKeeps(r, later);
  }

  /** The VM is gone, or already runs on the target. */
  predicate NothingToMigrate(vm: Option<VM>, target: string) {
    vm.None? || (vm.value.running && vm.value.node == target)
  }

  /** Positions i, j and k are those of the goroutine's first three steps. */
  ghost predicate FirstThree(steps: seq<Step>, i: nat, j: nat, k: nat) {
    && i < j < k < |steps| && steps[i].Own? && steps[j].Own? && steps[k].Own?
    && NoneOwn(steps[..i]) && NoneOwn(steps[i + 1..j]) && NoneOwn(steps[j + 1..k])
  }

  /** After its first two steps the goroutine has given up or holds what it read. */
  lemma ChecksDone(vm: Option<VM>, target: string, steps: seq<Step>, i: nat, j: nat, k: nat)
    requires MigrateLive(vm, target).Started? && FirstThree(steps, i, j, k)
    ensures var start := MigrateLive(vm, target).run;
            var r, first, second := After(start, steps[..k]), After(start, steps[..i]).vm, After(start, steps[..j]).vm;
            && r.target == target && r.status.phase == Pending
            && r.pc == if first.None? || second.None? then Ended else Seen(second.value)
  {
    var start := MigrateLive(vm, target).run;
    StandsStill(start, steps[..i]);
    NextOwn(start, steps, i, j);
    NextOwn(start, steps, j, k);
  }

  /** The own step that leaves the checks decides whether the run is pending at any later point. */
  lemma PendingFrom(r: Run, steps: seq<Step>, k: nat, n: nat)
    requires Inv(r) && k < n <= |steps| && steps[k].Own? && !Checking(Advance(After(r, steps[..k])).pc)
    ensures After(r, steps[..n]).status.phase == Pending <==>
              Advance(After(r, steps[..k])).status.phase == Pending
  {
    EveryStepKeeps(r, steps[..k]);
    AdvanceKeeps(After(r, steps[..k]));
    assert steps[..k + 1][..k] == steps[..k] && steps[..n][..k + 1] == steps[..k + 1];
    Split(r, steps[..n], k + 1);
    PendingIsDecided(After(r, steps[..k + 1]), steps[..n][k + 1..]);
  }

  /** From its third step on, a migration is pending at every point of the run if and only if
      its first step found the VM lost, or its second found nothing to migrate: the VM lost,
      or at the target by other means, since the request. */
  lemma LeftPendingIff(vm: Option<VM>, target: string, steps: seq<Step>, i: nat, j: nat, k: nat, n: nat)
    requires MigrateLive(vm, target).Started? && FirstThree(steps, i, j, k) && k < n <= |steps|
    ensures var start := MigrateLive(vm, target).run;
            After(start, steps[..n]).status.phase == Pending <==>
              After(start, steps[..i]).vm.None? || NothingToMigrate(After(start, steps[..j]).vm, target)
  {
    var start := MigrateLive(vm, target).run;
    var before := After(start, steps[..k]);
    StartKeeps(vm, target);
    ChecksDone(vm, target, steps, i, j, k);
    PendingFrom(start, steps, k, n);
  }

  /** The VM is destroyed between the request and the goroutine's first step: the status says
      pending whatever happens after that. */
  lemma PendingForEver(vm: Option<VM>, target: string, later: seq<Step>)
    requires MigrateLive(vm, target).Started?
    ensures After(MigrateLive(vm, target).run, [Other(None), Own] + later).status == Status(Pending, 0)
  {
    var start := MigrateLive(vm, target).run;
    var steps := [Other(None), Own] + later;
    assert steps[..2] == [Other(None), Own] && steps[2..] == later;
    assert [Other(None), Own][..1] == [Other(None)] && [Other(None)][..0] == [];
    var r := After(start, [Other(None), Own]);
    assert After(start, [Other(None)]) == start.(vm := None);
    Split(start, steps, 2);
    StartKeeps(vm, target);
    EveryStepKeeps(start, [Other(None), Own]);
    PendingIsDecided(r, later);
    EveryStepKeeps(r, later);
  }

  ghost predicate NobodyElse(steps: seq<Step>) {
    forall k :: 0 <= k < |steps| ==> !steps[k].Other?
  }

  lemma AdvanceAlone(r: Run, vm: VM)
    requires StatusAt(r) && Alone(r, vm)
    ensures Alone(Advance(r), vm)
  {
  }

  /** The VM as its migration alone leaves it: on the target from the write on. */
  predicate Alone(r: Run, vm: VM) {
    && r.vm == Some(if r.wrote then vm.(node := r.target) else vm)
    && (r.pc.Seen? ==> r.pc.vm == vm)
    && (r.wrote ==> r.pc.Finishing? || r.pc.Ended?) && (r.pc.Finishing? ==> r.wrote)
    && vm.running && vm.node != r.target
    && (r.pc.Ended? && !r.cancelled ==> r.wrote)
    && (r.sawCancel ==> r.cancelled)
  }

  lemma {:induction false} StaysAlone(r: Run, steps: seq<Step>, vm: VM)
    requires Inv(r) && Alone(r, vm) && NobodyElse(steps)
    ensures Alone(After(r, steps), vm) && After(r, steps).target == r.target
  {
    if |steps| > 0 {
      StaysAlone(r, steps[..|steps| - 1], vm);
      EveryStepKeeps(r, steps[..|steps| - 1]);
      AdvanceAlone(After(r, steps[..|steps| - 1]), vm);
    }
  }

  /** When nobody else touches the VM, it is on the target from the write on and where it was
      until then; so at the end it has moved exactly if the status says completed. */
  lemma NodeFollowsOutcome(vm: Option<VM>, target: string, steps: seq<Step>)
    requires MigrateLive(vm, target).Started? && NobodyElse(steps)
    ensures var r := After(MigrateLive(vm, target).run, steps);
            && r.target == target
            && r.vm == Some(if r.wrote then vm.value.(node := target) else vm.value)
            && (r.pc.Ended? ==> (r.vm.value.node == target <==> r.status.phase == Completed))
            && (r.pc.Ended? && !r.cancelled ==> r.status.phase == Completed)
  {
    var start := MigrateLive(vm, target).run;
    StartKeeps(vm, target);
    EveryStepKeeps(start, steps);
    StaysAlone(start, steps, vm.value);
  }
}
