/** VM lifecycle: the Rust registry, the Go mock that stands in for it, and the backend that
    mirrors the core's states. */
module VmLifecycle {

  const ERR_NOT_FOUND: int := -4
  const ERR_INVALID_STATE: int := -5

  datatype Result = Ok(value: int) | Err(code: int)

  datatype Op =
    | Create
    | Destroy(h: int)
    | Configure(h: int, vcpus: nat, memoryMb: nat)
    | Start(h: int) | Stop(h: int) | Pause(h: int) | Resume(h: int)
    | GetState(h: int)
    | Count

  // ---------------------------------------------------------------------------
  // kvm_mgr
  // ---------------------------------------------------------------------------

  datatype VmState = Created | Configured | Running | Paused | Stopped

  datatype VmInstance = VmInstance(state: VmState, vcpus: nat, memoryMb: nat)

  datatype Registry = Registry(vms: map<int, VmInstance>, nextHandle: int)

  const EmptyRegistry := Registry(map[], 1)

  predicate CanTransition(from: VmState, to: VmState) {
    match from
    case Created => to == Configured
    case Configured => to == Running || to == Stopped
    case Running => to == Paused || to == Stopped
    case Paused => to == Running || to == Stopped
    case Stopped => false
  }

  function StateCode(s: VmState): int {
    match s
    case Created => 0
    case Configured => 1
    case Running => 2
    case Paused => 3
    case Stopped => 4
  }

  function Transition(k: Registry, h: int, to: VmState): (Registry, Result) {
    if h !in k.vms then (k, Err(ERR_NOT_FOUND))
    else if !CanTransition(k.vms[h].state, to) then (k, Err(ERR_INVALID_STATE))
    else (k.(vms := k.vms[h := k.vms[h].(state := to)]), Ok(0))
  }

  function KvmStep(k: Registry, op: Op): (Registry, Result) {
    match op
    case Create =>
      (Registry(k.vms[k.nextHandle := VmInstance(Created, 0, 0)], k.nextHandle + 1), Ok(k.nextHandle))
    case Destroy(h) =>
      if h !in k.vms then (k, Err(ERR_NOT_FOUND)) else (k.(vms := k.vms - {h}), Ok(0))
    case Configure(h, vcpus, mb) =>
      if h !in k.vms then (k, Err(ERR_NOT_FOUND))
      else if k.vms[h].state != Created then (k, Err(ERR_INVALID_STATE))
      else (k.(vms := k.vms[h := VmInstance(Configured, vcpus, mb)]), Ok(0))
    case Start(h) => Transition(k, h, Running)
    case Stop(h) => Transition(k, h, Stopped)
    case Pause(h) => Transition(k, h, Paused)
    case Resume(h) => Transition(k, h, Running)
    case GetState(h) => if h !in k.vms then (k, Err(ERR_NOT_FOUND)) else (k, Ok(StateCode(k.vms[h].state)))
    case Count => (k, Ok(|k.vms|))
  }

  // ---------------------------------------------------------------------------
  // The mock: integer state codes, resume guarded by hand
  // ---------------------------------------------------------------------------

  datatype MockVM = MockVM(state: int, vcpus: nat, memoryMb: nat)

  datatype Mock = Mock(vms: map<int, MockVM>, nextHandle: int)

  const EmptyMock := Mock(map[], 1)

  predicate StateTransitionAllowed(from: int, to: int) {
    || (from == 0 && to == 1)
    || (from == 1 && to == 2)
    || (from == 1 && to == 4)
    || (from == 2 && to == 3)
    || (from == 2 && to == 4)
    || (from == 3 && to == 2)
    || (from == 3 && to == 4)
  }

  function MockTransition(m: Mock, h: int, to: int): (Mock, Result) {
    if h !in m.vms then (m, Err(ERR_NOT_FOUND))
    else if !StateTransitionAllowed(m.vms[h].state, to) then (m, Err(ERR_INVALID_STATE))
    else (m.(vms := m.vms[h := m.vms[h].(state := to)]), Ok(0))
  }

  function MockStep(m: Mock, op: Op): (Mock, Result) {
    match op
    case Create => (Mock(m.vms[m.nextHandle := MockVM(0, 0, 0)], m.nextHandle + 1), Ok(m.nextHandle))
    case Destroy(h) =>
      if h !in m.vms then (m, Err(ERR_NOT_FOUND)) else (m.(vms := m.vms - {h}), Ok(0))
    case Configure(h, vcpus, mb) =>
      if h !in m.vms then (m, Err(ERR_NOT_FOUND))
      else if !StateTransitionAllowed(m.vms[h].state, 1) then (m, Err(ERR_INVALID_STATE))
      else (m.(vms := m.vms[h := MockVM(1, vcpus, mb)]), Ok(0))
    case Start(h) => MockTransition(m, h, 2)
    case Stop(h) => MockTransition(m, h, 4)
    case Pause(h) => MockTransition(m, h, 3)
    case Resume(h) =>
      if h !in m.vms then (m, Err(ERR_NOT_FOUND))
      else if m.vms[h].state != 3 then (m, Err(ERR_INVALID_STATE))
      else (m.(vms := m.vms[h := m.vms[h].(state := 2)]), Ok(0))
    case GetState(h) => if h !in m.vms then (m, Err(ERR_NOT_FOUND)) else (m, Ok(m.vms[h].state))
    case Count => (m, Ok(|m.vms|))
  }

  // ---------------------------------------------------------------------------
  // Lockstep
  // ---------------------------------------------------------------------------

  ghost predicate InStep(k: Registry, m: Mock) {
    && k.nextHandle == m.nextHandle
    && k.vms.Keys == m.vms.Keys
    && forall h :: h in k.vms ==>
         m.vms[h] == MockVM(StateCode(k.vms[h].state), k.vms[h].vcpus, k.vms[h].memoryMb)
  }

  lemma RulesAgree(from: VmState, to: VmState)
    ensures StateTransitionAllowed(StateCode(from), StateCode(to)) <==> CanTransition(from, to)
  {
  }

  /** The one case in which the two cores differ. */
  predicate ResumesConfigured(k: Registry, op: Op) {
    op.Resume? && op.h in k.vms && k.vms[op.h].state == Configured
  }

  lemma TransitionsAgree(k: Registry, m: Mock, h: int, to: VmState)
    requires InStep(k, m)
    ensures InStep(Transition(k, h, to).0, MockTransition(m, h, StateCode(to)).0)
    ensures Transition(k, h, to).1 == MockTransition(m, h, StateCode(to)).1
  {
    if h in k.vms { RulesAgree(k.vms[h].state, to); }
  }

  lemma SameSize(k: Registry, m: Mock)
    requires InStep(k, m)
    ensures |k.vms| == |m.vms|
  {
    assert |k.vms| == |k.vms.Keys| && |m.vms| == |m.vms.Keys|;
  }

  /** From registries in step, an operation gives the same result and leaves them in step if
      and only if it does not resume a Configured VM. */
  lemma StepAgreesIff(k: Registry, m: Mock, op: Op)
    requires InStep(k, m)
    ensures KvmStep(k, op).1 == MockStep(m, op).1 <==> !ResumesConfigured(k, op)
    ensures InStep(KvmStep(k, op).0, MockStep(m, op).0) <==> !ResumesConfigured(k, op)
  {
    match op
    case Start(h) => TransitionsAgree(k, m, h, Running);
    case Stop(h) => TransitionsAgree(k, m, h, Stopped);
    case Pause(h) => TransitionsAgree(k, m, h, Paused);
    case Resume(h) => TransitionsAgree(k, m, h, Running);
    case Count => SameSize(k, m);
    case _ =>
  }

  function KvmRun(ops: seq<Op>): (r: (Registry, seq<Result>))
    ensures |r.1| == |ops|
  {
    if |ops| == 0 then (EmptyRegistry, [])
    else
      var (k, rs) := KvmRun(ops[..|ops| - 1]);
      var (k', r) := KvmStep(k, ops[|ops| - 1]);
      (k', rs + [r])
  }

  function MockRun(ops: seq<Op>): (r: (Mock, seq<Result>))
    ensures |r.1| == |ops|
  {
    if |ops| == 0 then (EmptyMock, [])
    else
      var (m, rs) := MockRun(ops[..|ops| - 1]);
      var (m', r) := MockStep(m, ops[|ops| - 1]);
      (m', rs + [r])
  }

  ghost predicate NeverResumesConfigured(ops: seq<Op>) {
    forall k :: 0 <= k < |ops| ==> !ResumesConfigured(KvmRun(ops[..k]).0, ops[k])
  }

  /** A run gives the same handles, states and error codes in the mock and in the Rust registry
      if and only if it never resumes a Configured VM; the registries then stay in step. */
  lemma {:induction false} RunsAgreeIff(ops: seq<Op>)
    ensures KvmRun(ops).1 == MockRun(ops).1 <==> NeverResumesConfigured(ops)
    ensures NeverResumesConfigured(ops) ==> InStep(KvmRun(ops).0, MockRun(ops).0)
  {
    if |ops| > 0 {
      var front, op := ops[..|ops| - 1], ops[|ops| - 1];
      assert ops == front + [op];
      OneMore(front, op);
      RunsAgreeIff(front);
      LastResume(ops);
      if NeverResumesConfigured(front) {
        StepAgreesIff(KvmRun(front).0, MockRun(front).0, op);
      } else {
        assert KvmRun(ops).1[..|front|] == KvmRun(front).1 && MockRun(ops).1[..|front|] == MockRun(front).1;
      }
    }
  }

  lemma LastResume(ops: seq<Op>)
    requires |ops| > 0
    ensures var front := ops[..|ops| - 1];
            NeverResumesConfigured(ops) <==>
              NeverResumesConfigured(front) && !ResumesConfigured(KvmRun(front).0, ops[|ops| - 1])
  {
    var front := ops[..|ops| - 1];
    assert forall k :: 0 <= k < |front| ==> front[..k] == ops[..k] && front[k] == ops[k];
  }

  lemma OneMore(ops: seq<Op>, op: Op)
    ensures KvmRun(ops + [op]) == (KvmStep(KvmRun(ops).0, op).0, KvmRun(ops).1 + [KvmStep(KvmRun(ops).0, op).1])
    ensures MockRun(ops + [op]) == (MockStep(MockRun(ops).0, op).0, MockRun(ops).1 + [MockStep(MockRun(ops).0, op).1])
  {
    assert (ops + [op])[..|ops|] == ops;
  }

  /** Resuming a VM that was configured but never started: Rust starts it, the mock refuses. */
  lemma ResumeConfiguredDiffers()
    ensures var ops := [Create] + [Configure(1, 1, 1)] + [Resume(1)];
            KvmRun(ops).1 == [Ok(1), Ok(0), Ok(0)] && MockRun(ops).1 == [Ok(1), Ok(0), Err(ERR_INVALID_STATE)]
  {
    assert [Create] == [] + [Create];
    OneMore([], Create);
    OneMore([Create], Configure(1, 1, 1));
    OneMore([Create] + [Configure(1, 1, 1)], Resume(1));
  }

  // ---------------------------------------------------------------------------
  // What a registry never does
  // ---------------------------------------------------------------------------

  ghost predicate HandlesBelow(k: Registry) {
    forall h :: h in k.vms ==> h < k.nextHandle
  }

  function KvmAfter(k: Registry, ops: seq<Op>): Registry {
    if |ops| == 0 then k else KvmStep(KvmAfter(k, ops[..|ops| - 1]), ops[|ops| - 1]).0
  }

  lemma {:induction false} HandlesGrow(k: Registry, ops: seq<Op>)
    requires HandlesBelow(k)
    ensures HandlesBelow(KvmAfter(k, ops)) && KvmAfter(k, ops).nextHandle >= k.nextHandle
  {
    if |ops| > 0 { HandlesGrow(k, ops[..|ops| - 1]); }
  }

  /** A handle once given out and destroyed never names a VM again, and a stopped VM stays
      stopped, with its configuration, until it is destroyed. */
  lemma {:induction false} NoResurrection(k: Registry, ops: seq<Op>, h: int)
    requires HandlesBelow(k) && h < k.nextHandle
    ensures h !in k.vms ==> h !in KvmAfter(k, ops).vms
    ensures h in k.vms && k.vms[h].state == Stopped && h in KvmAfter(k, ops).vms ==>
              KvmAfter(k, ops).vms[h] == k.vms[h]
  {
    if |ops| > 0 {
      NoResurrection(k, ops[..|ops| - 1], h);
      HandlesGrow(k, ops[..|ops| - 1]);
    }
  }

  // ---------------------------------------------------------------------------
  // The registries as objects
  // ---------------------------------------------------------------------------

  class KvmManager {
    var vms: map<int, VmInstance>
    var nextHandle: int

    ghost function View(): Registry
      reads this
    {
      Registry(vms, nextHandle)
    }

    constructor ()
      ensures View() == EmptyRegistry
    {
      vms, nextHandle := map[], 1;
    }

    method CreateVm() returns (r: Result)
      modifies this
      ensures (View(), r) == KvmStep(old(View()), Create)
    {
      var handle := nextHandle;
      nextHandle := nextHandle + 1;
      vms := vms[handle := VmInstance(Created, 0, 0)];
      r := Ok(handle);
    }

    method DestroyVm(h: int) returns (r: Result)
      modifies this
      ensures (View(), r) == KvmStep(old(View()), Destroy(h))
    {
      if h !in vms {
        return Err(ERR_NOT_FOUND);
      }
      vms := vms - {h};
      r := Ok(0);
    }

    method ConfigureVm(h: int, vcpus: nat, memoryMb: nat) returns (r: Result)
      modifies this
      ensures (View(), r) == KvmStep(old(View()), Configure(h, vcpus, memoryMb))
    {
      if h !in vms {
        return Err(ERR_NOT_FOUND);
      }
      if vms[h].state != Created {
        return Err(ERR_INVALID_STATE);
      }
      vms := vms[h := VmInstance(Configured, vcpus, memoryMb)];
      r := Ok(0);
    }

    /** Start, stop, pause and resume are this with a fixed target. */
    method TransitionVm(h: int, target: VmState) returns (r: Result)
      modifies this
      ensures (View(), r) == Transition(old(View()), h, target)
    {
      if h !in vms {
        return Err(ERR_NOT_FOUND);
      }
      if !CanTransition(vms[h].state, target) {
        return Err(ERR_INVALID_STATE);
      }
      vms := vms[h := vms[h].(state := target)];
      r := Ok(0);
    }

    /** The FFI entry points: resume is a transition to Running like start. */
    method Perform(op: Op) returns (r: Result)
      modifies this
      ensures (View(), r) == KvmStep(old(View()), op)
    {
      match op {
        case Create => r := CreateVm();
        case Destroy(h) => r := DestroyVm(h);
        case Configure(h, vcpus, memoryMb) => r := ConfigureVm(h, vcpus, memoryMb);
        case Start(h) => r := TransitionVm(h, Running);
        case Stop(h) => r := TransitionVm(h, Stopped);
        case Pause(h) => r := TransitionVm(h, Paused);
        case Resume(h) => r := TransitionVm(h, Running);
        case GetState(h) => r := if h in vms then Ok(StateCode(vms[h].state)) else Err(ERR_NOT_FOUND);
        case Count => r := Ok(|vms|);
      }
    }
  }

  class MockVMCore {
    var vms: map<int, MockVM>
    var nextHandle: int

    ghost function View(): Mock
      reads this
    {
      Mock(vms, nextHandle)
    }

    constructor ()
      ensures View() == EmptyMock
    {
      vms, nextHandle := map[], 1;
    }

    method CreateVM() returns (r: Result)
      modifies this
      ensures (View(), r) == MockStep(old(View()), Create)
    {
      var handle := nextHandle;
      nextHandle := nextHandle + 1;
      vms := vms[handle := MockVM(0, 0, 0)];
      r := Ok(handle);
    }

    method DestroyVM(h: int) returns (r: Result)
      modifies this
      ensures (View(), r) == MockStep(old(View()), Destroy(h))
    {
      if h !in vms {
        return Err(ERR_NOT_FOUND);
      }
      vms := vms - {h};
      r := Ok(0);
    }

    method ConfigureVM(h: int, vcpus: nat, memoryMb: nat) returns (r: Result)
      modifies this
      ensures (View(), r) == MockStep(old(View()), Configure(h, vcpus, memoryMb))
    {
      if h !in vms {
        return Err(ERR_NOT_FOUND);
      }
      if !StateTransitionAllowed(vms[h].state, 1) {
        return Err(ERR_INVALID_STATE);
      }
      vms := vms[h := MockVM(1, vcpus, memoryMb)];
      r := Ok(0);
    }

    method TransitionVM(h: int, target: int) returns (r: Result)
      modifies this
      ensures (View(), r) == MockTransition(old(View()), h, target)
    {
      if h !in vms {
        return Err(ERR_NOT_FOUND);
      }
      if !StateTransitionAllowed(vms[h].state, target) {
        return Err(ERR_INVALID_STATE);
      }
      vms := vms[h := vms[h].(state := target)];
      r := Ok(0);
    }

    method ResumeVM(h: int) returns (r: Result)
      modifies this
      ensures (View(), r) == MockStep(old(View()), Resume(h))
    {
      if h !in vms {
        return Err(ERR_NOT_FOUND);
      }
      if vms[h].state != 3 {
        return Err(ERR_INVALID_STATE);
      }
      vms := vms[h := vms[h].(state := 2)];
      r := Ok(0);
    }

    method GetVMState(h: int) returns (r: Result)
      ensures r == MockStep(View(), GetState(h)).1
    {
      r := if h in vms then Ok(vms[h].state) else Err(ERR_NOT_FOUND);
    }

    method Perform(op: Op) returns (r: Result)
      modifies this
      ensures (View(), r) == MockStep(old(View()), op)
    {
      match op {
        case Create => r := CreateVM();
        case Destroy(h) => r := DestroyVM(h);
        case Configure(h, vcpus, memoryMb) => r := ConfigureVM(h, vcpus, memoryMb);
        case Start(h) => r := TransitionVM(h, 2);
        case Stop(h) => r := TransitionVM(h, 4);
        case Pause(h) => r := TransitionVM(h, 3);
        case Resume(h) => r := ResumeVM(h);
        case GetState(h) => r := GetVMState(h);
        case Count => r := Ok(|vms|);
      }
    }
  }

  /** A run driven through both objects: their answers are the same from end to end if and only
      if the run never resumes a Configured VM. */
  method DriveBoth(ops: seq<Op>) returns (rust: seq<Result>, mock: seq<Result>)
    ensures rust == KvmRun(ops).1 && mock == MockRun(ops).1
    ensures rust == mock <==> NeverResumesConfigured(ops)
  {
    var kvm := new KvmManager();
    var core := new MockVMCore();
    rust, mock := [], [];
    for k := 0 to |ops|
      invariant fresh(kvm) && fresh(core)
      invariant (kvm.View(), rust) == KvmRun(ops[..k])
      invariant (core.View(), mock) == MockRun(ops[..k])
    {
      assert ops[..k + 1] == ops[..k] + [ops[k]];
      OneMore(ops[..k], ops[k]);
      var a := kvm.Perform(ops[k]);
      var b := core.Perform(ops[k]);
      rust, mock := rust + [a], mock + [b];
    }
    assert ops[..|ops|] == ops;
    RunsAgreeIff(ops);
  }

  // ---------------------------------------------------------------------------
  // The backend's mirror of its core, under sequential use
  // ---------------------------------------------------------------------------

  function StateString(code: int): string {
    if code == 0 then "created"
    else if code == 1 then "configured"
    else if code == 2 then "running"
    else if code == 3 then "paused"
    else if code == 4 then "stopped"
    else "unknown"
  }

  lemma StateStringInjective(a: int, b: int)
    requires 0 <= a <= 4 && 0 <= b <= 4 && StateString(a) == StateString(b)
    ensures a == b
  {
    assert |StateString(0)| == 7 && |StateString(1)| == 10 && |StateString(2)| == 7;
    assert StateString(0)[0] == 'c' && StateString(2)[0] == 'r' && StateString(4)[0] == 's';
  }

  ghost predicate CodesValid(m: Mock) {
    forall h :: h in m.vms ==> 0 <= m.vms[h].state <= 4
  }

  /** The mock never leaves the five state codes. */
  lemma {:induction false} RunKeepsCodes(ops: seq<Op>)
    ensures CodesValid(MockRun(ops).0)
  {
    if |ops| > 0 {
      RunKeepsCodes(ops[..|ops| - 1]);
      assert ops == ops[..|ops| - 1] + [ops[|ops| - 1]];
      OneMore(ops[..|ops| - 1], ops[|ops| - 1]);
    }
  }

  datatype VMInfo = VMInfo(name: string, state: string, vcpus: nat, memoryMb: nat)

  /** Same handles, and for each the core's state under its name and its configuration. */
  ghost predicate Mirrors(vms: map<int, VMInfo>, core: Mock) {
    && vms.Keys == core.vms.Keys
    && forall h :: h in vms ==>
         && vms[h].state == StateString(core.vms[h].state)
         && vms[h].vcpus == core.vms[h].vcpus && vms[h].memoryMb == core.vms[h].memoryMb
  }

  /** The names in the mirror determine the core: two cores with valid codes that the same
      mirror agrees with hold the same VMs in the same states. */
  lemma MirrorDeterminesCore(vms: map<int, VMInfo>, a: Mock, b: Mock)
    requires Mirrors(vms, a) && Mirrors(vms, b) && CodesValid(a) && CodesValid(b)
    ensures a.vms == b.vms
  {
    forall h | h in vms ensures a.vms[h] == b.vms[h] {
      StateStringInjective(a.vms[h].state, b.vms[h].state);
    }
  }

  /** The state a caller sees after the action has succeeded. */
  function NameAfter(op: Op): string {
    if op.Stop? then "stopped" else if op.Pause? then "paused" else "running"
  }

  /** The names of the five states of the Rust registry. */
  lemma NamesOfStates(s: VmState)
    ensures StateString(StateCode(s))
            == match s
               case Created => "created"
               case Configured => "configured"
               case Running => "running"
               case Paused => "paused"
               case Stopped => "stopped"
  {
  }

  /** The registry after a whole life: each call succeeds, the handle is new, the state read back is
      the one the call leads to, and after the end the handle is unknown. */
  lemma WholeLife(k: Registry, vcpus: nat, memoryMb: nat)
    requires k.nextHandle !in k.vms
    ensures var (k1, r) := KvmStep(k, Create);
            && r == Ok(k.nextHandle) && KvmStep(k1, GetState(r.value)).1 == Ok(0)
            && KvmStep(k1, Count).1 == Ok(|k.vms| + 1)
            && var h := r.value;
            var k2 := KvmStep(k1, Configure(h, vcpus, memoryMb)).0;
            var k3 := KvmStep(k2, Start(h)).0;
            var k4 := KvmStep(k3, Pause(h)).0;
            var k5 := KvmStep(k4, Resume(h)).0;
            var k6 := KvmStep(k5, Stop(h)).0;
            var k7 := KvmStep(k6, Destroy(h)).0;
            && KvmStep(k2, GetState(h)).1 == Ok(1) && KvmStep(k3, GetState(h)).1 == Ok(2)
            && KvmStep(k4, GetState(h)).1 == Ok(3) && KvmStep(k5, GetState(h)).1 == Ok(2)
            && KvmStep(k6, GetState(h)).1 == Ok(4) && KvmStep(k7, GetState(h)).1 == Err(-4)
            && h in k6.vms && k6.vms[h].vcpus == vcpus && k6.vms[h].memoryMb == memoryMb
            && k7.vms == k.vms
  {
    var h := k.nextHandle;
    var k1 := KvmStep(k, Create).0;
    var k2 := KvmStep(k1, Configure(h, vcpus, memoryMb)).0;
    var k3 := KvmStep(k2, Start(h)).0;
    var k4 := KvmStep(k3, Pause(h)).0;
    var k5 := KvmStep(k4, Resume(h)).0;
    var k6 := KvmStep(k5, Stop(h)).0;
    assert k1.vms == k.vms[h := VmInstance(Created, 0, 0)];
    assert |k1.vms| == |k.vms| + 1;
    assert k6.vms == k.vms[h := VmInstance(Stopped, vcpus, memoryMb)];
  }

  /** A call on one handle leaves every other VM alone, in either core. */
  lemma OnlyItsOwnVm(k: Registry, m: Mock, op: Op, x: int)
    requires !op.Create? && !op.Count? && op.h != x
    ensures x in KvmStep(k, op).0.vms <==> x in k.vms
    ensures x in k.vms ==> KvmStep(k, op).0.vms[x] == k.vms[x]
    ensures x in MockStep(m, op).0.vms <==> x in m.vms
    ensures x in m.vms ==> MockStep(m, op).0.vms[x] == m.vms[x]
  {
  }

  /** The code of an error tells whether the handle is unknown or the state forbids it, in either
      core, and nothing changes. */
  lemma ErrorsTell(k: Registry, m: Mock, op: Op)
    ensures KvmStep(k, op).1.Err? ==>
              !op.Create? && !op.Count? && KvmStep(k, op) == (k, Err(if op.h in k.vms then -5 else -4))
    ensures MockStep(m, op).1.Err? ==>
              !op.Create? && !op.Count? && MockStep(m, op) == (m, Err(if op.h in m.vms then -5 else -4))
  {
  }

  class RustVMMBackend {
    const core: MockVMCore
    var vms: map<int, VMInfo>

    ghost predicate Valid()
      reads this, core
    {
      Mirrors(vms, core.View())
    }

    constructor (core: MockVMCore)
      requires core.View() == EmptyMock
      ensures Valid() && this.core == core && vms == map[]
    {
      this.core := core;
      vms := map[];
    }

    /** Creation always succeeds and leaves the VM configured: the clean-up branch after a
        failing configure is never taken. */
    method CreateVM(name: string, vcpus: nat, memoryMb: nat) returns (r: Result)
      requires Valid()
      modifies this, core
      ensures Valid()
      ensures r == Ok(old(core.nextHandle))
      ensures core.View() == MockStep(MockStep(old(core.View()), Create).0,
                                      Configure(old(core.nextHandle), vcpus, memoryMb)).0
      ensures vms == old(vms)[old(core.nextHandle) := VMInfo(name, "configured", vcpus, memoryMb)]
    {
      var created := core.CreateVM();
      var handle := created.value;
      var configured := core.ConfigureVM(handle, vcpus, memoryMb);
      if configured.Err? {
        assert false;
      }
      vms := vms[handle := VMInfo(name, "configured", vcpus, memoryMb)];
      r := Ok(handle);
    }

    method DestroyVM(h: int) returns (r: Result)
      requires Valid()
      modifies this, core
      ensures Valid()
      ensures (core.View(), r) == MockStep(old(core.View()), Destroy(h))
    {
      r := core.DestroyVM(h);
      if r.Err? {
        return;
      }
      vms := vms - {h};
    }

    /** After a successful core transition, read the state back and record its name. */
    method Sync(h: int) returns (r: Result)
      requires vms.Keys == core.vms.Keys
      requires forall x :: x in vms && x != h ==> vms[x].state == StateString(core.vms[x].state)
      requires forall x :: x in vms ==> vms[x].vcpus == core.vms[x].vcpus && vms[x].memoryMb == core.vms[x].memoryMb
      modifies this
      ensures Valid() && r == if h in vms then Ok(0) else Err(ERR_NOT_FOUND)
    {
      var code := core.GetVMState(h);
      if code.Err? {
        return code;
      }
      if h in vms {
        vms := vms[h := vms[h].(state := StateString(code.value))];
      }
      r := Ok(0);
    }

    /** start, stop, pause and resume of the backend. */
    method ActionVM(op: Op) returns (r: Result)
      requires Valid() && (op.Start? || op.Stop? || op.Pause? || op.Resume?)
      modifies this, core
      ensures Valid()
      ensures (core.View(), r) == MockStep(old(core.View()), op)
      ensures r.Ok? ==> op.h in vms && vms[op.h].state == NameAfter(op)
      ensures r.Err? ==> vms == old(vms) && r.code == if op.h in vms then -5 else -4
    {
      match op {
        case Start(h) => r := core.TransitionVM(h, 2);
        case Stop(h) => r := core.TransitionVM(h, 4);
        case Pause(h) => r := core.TransitionVM(h, 3);
        case Resume(h) => r := core.ResumeVM(h);
      }
      if r.Err? {
        return;
      }
      r := Sync(op.h);
    }
  }
}
