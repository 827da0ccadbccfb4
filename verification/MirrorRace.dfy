/** The backend's mirror of its core under concurrent callers. A call changes the core, reads the
    state back and writes the mirror, each under a lock of its own; other callers come between. */
module MirrorRace {
  import opened VmLifecycle

  /** Where one caller of the backend stands. */
  datatype Caller =
    | Idle
    | Changed(h: int)              // the core has changed, its state is to be read back
    | Fetched(h: int, code: int)   // read back, the mirror is to be written
    | Removed(h: int)              // gone from the core, to be deleted from the mirror

  datatype State = State(core: Mock, vms: map<int, VMInfo>, callers: seq<Caller>)

  /** `Begin` is a call's step on the core, `Go` the next step of a call under way. */
  datatype Step = Begin(who: nat, op: Op) | Go(who: nat)

  predicate IsAction(op: Op) { op.Start? || op.Stop? || op.Pause? || op.Resume? }

  function Resumed(s: State, who: nat): State
    requires who < |s.callers|
  {
    match s.callers[who]
    case Idle => s
    case Changed(h) =>
      s.(callers := s.callers[who := if h in s.core.vms then Fetched(h, s.core.vms[h].state) else Idle])
    case Fetched(h, code) =>
      s.(vms := if h in s.vms then s.vms[h := s.vms[h].(state := StateString(code))] else s.vms,
         callers := s.callers[who := Idle])
    case Removed(h) => s.(vms := s.vms - {h}, callers := s.callers[who := Idle])
  }

  /** A step that is not enabled, or a call the core refuses, leaves the state as it is. */
  function Move(s: State, step: Step): State {
    if step.who >= |s.callers| then s
    else
      match step
      case Go(who) => Resumed(s, who)
      case Begin(who, op) =>
        if !s.callers[who].Idle? || !(IsAction(op) || op.Destroy?) || MockStep(s.core, op).1.Err? then s
        else
          s.(core := MockStep(s.core, op).0,
             callers := s.callers[who := if op.Destroy? then Removed(op.h) else Changed(op.h)])
  }

  function After(s: State, steps: seq<Step>): State {
    if |steps| == 0 then s else Move(After(s, steps[..|steps| - 1]), steps[|steps| - 1])
  }

  ghost predicate Quiet(s: State) {
    forall i :: 0 <= i < |s.callers| ==> s.callers[i].Idle?
  }

  /** A call under way ends within two steps of its caller, whatever it is. */
  lemma CallsEnd(s: State, who: nat)
    requires who < |s.callers|
    ensures Resumed(Resumed(s, who), who).callers[who].Idle?
  {
  }

  /** In every run from a mirror that agrees with the core, it agrees whenever no call is
      under way. */
  ghost predicate MirrorIsSafe(callers: nat) {
    forall s: State, steps: seq<Step> ::
      |s.callers| == callers && Quiet(s) && Mirrors(s.vms, s.core) && Quiet(After(s, steps)) ==>
        Mirrors(After(s, steps).vms, After(s, steps).core)
  }

  // ---------------------------------------------------------------------------
  // One caller
  // ---------------------------------------------------------------------------

  /** The mirror agrees with the core except for the state of `h`. */
  ghost predicate MirrorsBut(vms: map<int, VMInfo>, core: Mock, h: int) {
    && vms.Keys == core.vms.Keys
    && forall x :: x in vms ==>
         && (x != h ==> vms[x].state == StateString(core.vms[x].state))
         && vms[x].vcpus == core.vms[x].vcpus && vms[x].memoryMb == core.vms[x].memoryMb
  }

  ghost predicate AloneInv(s: State) {
    |s.callers| <= 1
    && if |s.callers| == 0 then Mirrors(s.vms, s.core)
       else
         match s.callers[0]
         case Idle => Mirrors(s.vms, s.core)
         case Changed(h) => MirrorsBut(s.vms, s.core, h) && h in s.core.vms
         case Fetched(h, code) =>
           MirrorsBut(s.vms, s.core, h) && h in s.core.vms && s.core.vms[h].state == code
         case Removed(h) => Mirrors(s.vms - {h}, s.core)
  }

  lemma ResumedAlone(s: State)
    requires AloneInv(s) && |s.callers| == 1
    ensures AloneInv(Resumed(s, 0))
  {
  }

  lemma BegunAlone(s: State, op: Op)
    requires AloneInv(s) && |s.callers| == 1
    ensures AloneInv(Move(s, Begin(0, op)))
  {
  }

  lemma {:induction false} AlwaysAlone(s: State, steps: seq<Step>)
    requires AloneInv(s)
    ensures AloneInv(After(s, steps)) && |After(s, steps).callers| == |s.callers|
  {
    if |steps| > 0 {
      var s1, step := After(s, steps[..|steps| - 1]), steps[|steps| - 1];
      AlwaysAlone(s, steps[..|steps| - 1]);
      if step.who < |s1.callers| {
        match step
        case Go(_) => ResumedAlone(s1);
        case Begin(_, op) => BegunAlone(s1, op);
      }
    }
  }

  // ---------------------------------------------------------------------------
  // Two callers
  // ---------------------------------------------------------------------------

  /** The first caller starts the VM and reads that it runs; the second pauses it and records
      that; then the first writes what it read. */
  const StaleSchedule: seq<Step> := [Begin(0, Start(1)), Go(0), Begin(1, Pause(1)), Go(1), Go(1), Go(0)]

  /** One VM, its state in the core and in the mirror, and two callers of interest. */
  function At(callers: nat, code: int, name: string, first: Caller, second: Caller): (s: State)
    ensures |s.callers| == callers
  {
    State(Mock(map[1 := MockVM(code, 1, 1)], 2), map[1 := VMInfo("web", name, 1, 1)],
          seq(callers, i => if i == 0 then first else if i == 1 then second else Idle))
  }

  lemma CoreMoves(callers: nat, code: int, to: int, name: string, first: Caller, second: Caller)
    requires callers >= 2 && StateTransitionAllowed(code, to)
    ensures var s := At(callers, code, name, first, second);
            && (to == 2 && first.Idle? ==>
                  Move(s, Begin(0, Start(1))) == At(callers, to, name, Changed(1), second))
            && (to == 3 && second.Idle? ==>
                  Move(s, Begin(1, Pause(1))) == At(callers, to, name, first, Changed(1)))
  {
    var s := At(callers, code, name, first, second);
    assert s.core.vms[1 := MockVM(to, 1, 1)] == map[1 := MockVM(to, 1, 1)];
    assert s.callers[0 := Changed(1)] == At(callers, to, name, Changed(1), second).callers;
    assert s.callers[1 := Changed(1)] == At(callers, to, name, first, Changed(1)).callers;
  }

  lemma CallerMoves(callers: nat, code: int, name: string, first: Caller, second: Caller)
    requires callers >= 2
    ensures var s := At(callers, code, name, first, second);
            && (first == Changed(1) ==> Resumed(s, 0) == At(callers, code, name, Fetched(1, code), second))
            && (second == Changed(1) ==> Resumed(s, 1) == At(callers, code, name, first, Fetched(1, code)))
            && (first.Fetched? && first.h == 1 ==>
                  Resumed(s, 0) == At(callers, code, StateString(first.code), Idle, second))
            && (second.Fetched? && second.h == 1 ==>
                  Resumed(s, 1) == At(callers, code, StateString(second.code), first, Idle))
  {
    var s := At(callers, code, name, first, second);
    forall c: Caller ensures s.callers[0 := c] == At(callers, code, name, c, second).callers {}
    forall c: Caller ensures s.callers[1 := c] == At(callers, code, name, first, c).callers {}
    forall n: string ensures s.vms[1 := s.vms[1].(state := n)] == map[1 := VMInfo("web", n, 1, 1)] {}
  }

  lemma Unfold(s: State, steps: seq<Step>, step: Step)
    ensures After(s, steps + [step]) == Move(After(s, steps), step)
  {
    assert (steps + [step])[..|steps|] == steps;
  }

  lemma StartedAndRead(callers: nat)
    requires callers >= 2
    ensures After(At(callers, 1, "configured", Idle, Idle), StaleSchedule[..2])
            == At(callers, 2, "configured", Fetched(1, 2), Idle)
  {
    var s, t := At(callers, 1, "configured", Idle, Idle), StaleSchedule;
    Unfold(s, [], t[0]);
    Unfold(s, [t[0]], t[1]);
    CoreMoves(callers, 1, 2, "configured", Idle, Idle);
    CallerMoves(callers, 2, "configured", Changed(1), Idle);
    assert t[..2] == [t[0]] + [t[1]] && [] + [t[0]] == [t[0]];
  }

  lemma PausedAndRead(callers: nat)
    requires callers >= 2
    ensures After(At(callers, 1, "configured", Idle, Idle), StaleSchedule[..4])
            == At(callers, 3, "configured", Fetched(1, 2), Fetched(1, 3))
  {
    var s, t := At(callers, 1, "configured", Idle, Idle), StaleSchedule;
    StartedAndRead(callers);
    Unfold(s, t[..2], t[2]);
    Unfold(s, t[..3], t[3]);
    CoreMoves(callers, 2, 3, "configured", Fetched(1, 2), Idle);
    CallerMoves(callers, 3, "configured", Fetched(1, 2), Changed(1));
    assert t[..3] == t[..2] + [t[2]] && t[..4] == t[..3] + [t[3]];
  }

  /** With two callers or more the mirror can say "running" of a paused VM, with no call left
      to correct it. */
  lemma MirrorCanGoStale(callers: nat)
    requires callers >= 2
    ensures After(At(callers, 1, "configured", Idle, Idle), StaleSchedule) == At(callers, 3, "running", Idle, Idle)
  {
    var s, t := At(callers, 1, "configured", Idle, Idle), StaleSchedule;
    PausedAndRead(callers);
    Unfold(s, t[..4], t[4]);
    Unfold(s, t[..5], t[5]);
    CallerMoves(callers, 3, "configured", Fetched(1, 2), Fetched(1, 3));
    CallerMoves(callers, 3, "paused", Fetched(1, 2), Idle);
    assert t[..5] == t[..4] + [t[4]] && t == t[..5] + [t[5]];
  }

  /** The mirror can be relied on exactly when there is at most one caller at a time. */
  lemma MirrorSafeIff(callers: nat)
    ensures MirrorIsSafe(callers) <==> callers <= 1
  {
    if callers <= 1 {
      forall s: State, steps: seq<Step> |
        |s.callers| == callers && Quiet(s) && Mirrors(s.vms, s.core) && Quiet(After(s, steps))
        ensures Mirrors(After(s, steps).vms, After(s, steps).core)
      {
        AlwaysAlone(s, steps);
      }
    } else {
      MirrorCanGoStale(callers);
      var s, t := At(callers, 1, "configured", Idle, Idle), StaleSchedule;
      assert Quiet(s) && Mirrors(s.vms, s.core) && Quiet(After(s, t));
      var stale := After(s, t);
      assert 1 in stale.vms && stale.vms[1].state == "running" && StateString(stale.core.vms[1].state) == "paused";
      assert |"running"| != |"paused"| && !Mirrors(stale.vms, stale.core);
    }
  }
}
