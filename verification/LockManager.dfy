/** The in-memory lock manager of the HA package: a manager mutex guarding a table of key
    mutexes. Each mutex operation and each table access is a step of some thread. */
module LockManager {
  import opened Common

  type Thread = nat
  type MutexId = nat

  /** Where a thread is in acquireInMemory or tryAcquireInMemory and the returned unlock. */
  datatype Pc =
    | Outside
    | Wanting(key: string, try: bool)                 // about to lock the manager mutex
    | Looking(key: string, try: bool)                 // holds it, before the table access
    | Found(key: string, mutex: MutexId, try: bool)   // holds it, after the table access
    | Waiting(key: string, mutex: MutexId, try: bool) // about to lock the key mutex
    | Holding(key: string, mutex: MutexId)            // has the lock, unlock not yet called

  datatype Locks = Locks(
    manager: Option<Thread>, table: map<string, MutexId>, created: nat,
    owner: map<MutexId, Thread>, pcs: map<Thread, Pc>)
  {
    function At(t: Thread): Pc { if t in pcs then pcs[t] else Outside }
    function Goto(t: Thread, pc: Pc): Locks { this.(pcs := pcs[t := pc]) }
  }

  const Empty := Locks(None, map[], 0, map[], map[])

  datatype Step = Call(t: Thread, key: string, try: bool) | Go(t: Thread)

  /** One step; a blocked thread stays where it is. */
  function Move(s: Locks, step: Step): Locks {
    match step
    case Call(t, key, try) => if s.At(t).Outside? then s.Goto(t, Wanting(key, try)) else s
    case Go(t) =>
      match s.At(t)
      case Outside => s
      case Wanting(key, try) =>
        if s.manager.None? then s.(manager := Some(t)).Goto(t, Looking(key, try)) else s
      case Looking(key, try) =>
        if key in s.table then s.Goto(t, Found(key, s.table[key], try))
        else s.(table := s.table[key := s.created], created := s.created + 1).Goto(t, Found(key, s.created, try))
      case Found(key, m, try) => s.(manager := None).Goto(t, Waiting(key, m, try))
      case Waiting(key, m, try) =>
        if m !in s.owner then s.(owner := s.owner[m := t]).Goto(t, Holding(key, m))
        else if try then s.Goto(t, Outside)
        else s
      case Holding(key, m) => s.(owner := s.owner - {m}).Goto(t, Outside)
  }

  function Run(s: Locks, steps: seq<Step>): Locks {
    if |steps| == 0 then s else Move(Run(s, steps[..|steps| - 1]), steps[|steps| - 1])
  }

  // ---------------------------------------------------------------------------
  // What every step keeps
  // ---------------------------------------------------------------------------

  /** Every key has its own mutex. */
  ghost predicate TableInjective(s: Locks) {
    && (forall k :: k in s.table ==> s.table[k] < s.created)
    && (forall k, k' :: k in s.table && k' in s.table && s.table[k] == s.table[k'] ==> k == k')
  }

  /** A thread past the lookup works with the mutex the table has for its key. */
  ghost predicate PcMatchesTable(s: Locks) {
    forall t: Thread :: s.At(t).Found? || s.At(t).Waiting? || s.At(t).Holding? ==>
      s.At(t).key in s.table && s.table[s.At(t).key] == s.At(t).mutex
  }

  ghost predicate ManagerMatchesPc(s: Locks) {
    forall t: Thread :: s.manager == Some(t) <==> s.At(t).Looking? || s.At(t).Found?
  }

  ghost predicate OwnerMatchesPc(s: Locks) {
    && (forall t: Thread :: s.At(t).Holding? ==> s.At(t).mutex in s.owner && s.owner[s.At(t).mutex] == t)
    && (forall m :: m in s.owner ==> s.At(s.owner[m]).Holding? && s.At(s.owner[m]).mutex == m)
  }

  ghost predicate Inv(s: Locks) {
    TableInjective(s) && PcMatchesTable(s) && ManagerMatchesPc(s) && OwnerMatchesPc(s)
  }

  lemma OthersStay(s: Locks, step: Step, t: Thread)
    requires t != step.t
    ensures Move(s, step).At(t) == s.At(t)
  {
  }

  /** Only the table access of a new key changes the table, by one fresh mutex. */
  lemma TableGrows(s: Locks, step: Step)
    ensures var s' := Move(s, step);
            || (s'.table == s.table && s'.created == s.created)
            || (step.Go? && s.At(step.t).Looking? && s.At(step.t).key !in s.table
                && s'.table == s.table[s.At(step.t).key := s.created] && s'.created == s.created + 1)
  {
  }

  lemma MoveKeepsTable(s: Locks, step: Step)
    requires TableInjective(s)
    ensures TableInjective(Move(s, step))
    ensures forall k :: k in s.table ==> k in Move(s, step).table && Move(s, step).table[k] == s.table[k]
  {
    TableGrows(s, step);
  }

  /** What the moving thread's new program point says about the table. */
  lemma MoverMatchesTable(s: Locks, step: Step)
    requires Inv(s)
    ensures var s' := Move(s, step);
            var pc := s'.At(step.t);
            pc.Found? || pc.Waiting? || pc.Holding? ==> pc.key in s'.table && s'.table[pc.key] == pc.mutex
  {
    TableGrows(s, step);
  }

  lemma MoveKeepsPcs(s: Locks, step: Step)
    requires Inv(s)
    ensures PcMatchesTable(Move(s, step))
  {
    MoveKeepsTable(s, step);
    MoverMatchesTable(s, step);
    forall t: Thread | t != step.t ensures Move(s, step).At(t) == s.At(t) { OthersStay(s, step, t); }
  }

  lemma MoveKeepsManager(s: Locks, step: Step)
    requires Inv(s)
    ensures ManagerMatchesPc(Move(s, step))
  {
    forall t: Thread | t != step.t ensures Move(s, step).At(t) == s.At(t) { OthersStay(s, step, t); }
  }

  /** A step leaves the owners alone, takes a free mutex, or gives one back. */
  lemma OwnerChanges(s: Locks, step: Step)
    ensures var s', before, after := Move(s, step), s.At(step.t), Move(s, step).At(step.t);
            || (s'.owner == s.owner && (after == before || (!before.Holding? && !after.Holding?)))
            || (&& before.Waiting? && before.mutex !in s.owner && after == Holding(before.key, before.mutex)
                && s'.owner == s.owner[before.mutex := step.t])
            || (before.Holding? && after.Outside? && s'.owner == s.owner - {before.mutex})
  {
  }

  /** Only `t` moved, and not into or out of holding a mutex. */
  lemma SameOwners(s: Locks, s': Locks, t: Thread)
    requires OwnerMatchesPc(s) && s'.owner == s.owner
    requires forall u: Thread :: u != t ==> s'.At(u) == s.At(u)
    requires s'.At(t) == s.At(t) || (!s.At(t).Holding? && !s'.At(t).Holding?)
    ensures OwnerMatchesPc(s')
  {
  }

  lemma TakesMutex(s: Locks, s': Locks, t: Thread, m: MutexId)
    requires OwnerMatchesPc(s) && m !in s.owner && s'.owner == s.owner[m := t]
    requires forall u: Thread :: u != t ==> s'.At(u) == s.At(u)
    requires !s.At(t).Holding? && s'.At(t).Holding? && s'.At(t).mutex == m
    ensures OwnerMatchesPc(s')
  {
  }

  lemma GivesBack(s: Locks, s': Locks, t: Thread)
    requires OwnerMatchesPc(s) && s.At(t).Holding? && s'.owner == s.owner - {s.At(t).mutex}
    requires forall u: Thread :: u != t ==> s'.At(u) == s.At(u)
    requires s'.At(t).Outside?
    ensures OwnerMatchesPc(s')
  {
  }

  lemma MoveKeepsOwner(s: Locks, step: Step)
    requires Inv(s)
    ensures OwnerMatchesPc(Move(s, step))
  {
    var s', t := Move(s, step), step.t;
    forall u: Thread | u != t ensures s'.At(u) == s.At(u) { OthersStay(s, step, u); }
    OwnerChanges(s, step);
    if s'.owner == s.owner && (s'.At(t) == s.At(t) || (!s.At(t).Holding? && !s'.At(t).Holding?)) {
      SameOwners(s, s', t);
    } else if s.At(t).Waiting? {
      TakesMutex(s, s', t, s.At(t).mutex);
    } else {
      GivesBack(s, s', t);
    }
  }

  lemma MoveKeeps(s: Locks, step: Step)
    requires Inv(s)
    ensures Inv(Move(s, step))
    ensures forall k :: k in s.table ==> k in Move(s, step).table && Move(s, step).table[k] == s.table[k]
  {
    MoveKeepsTable(s, step);
    MoveKeepsPcs(s, step);
    MoveKeepsManager(s, step);
    MoveKeepsOwner(s, step);
  }

  lemma {:induction false} EveryRunKeeps(steps: seq<Step>)
    ensures Inv(Run(Empty, steps))
  {
    if |steps| > 0 {
      EveryRunKeeps(steps[..|steps| - 1]);
      MoveKeeps(Run(Empty, steps[..|steps| - 1]), steps[|steps| - 1]);
    }
  }

  ghost predicate Holds(s: Locks, t: Thread, key: string) {
    s.At(t).Holding? && s.At(t).key == key
  }

  /** In every interleaving, at most one thread holds a given key. */
  lemma MutualExclusion(steps: seq<Step>, t: Thread, u: Thread, key: string)
    requires Holds(Run(Empty, steps), t, key) && Holds(Run(Empty, steps), u, key)
    ensures t == u
  {
    EveryRunKeeps(steps);
    var s := Run(Empty, steps);
    assert s.At(t).mutex == s.table[key] == s.At(u).mutex;
  }

  /** A key's mutex, once created, is never replaced. */
  lemma {:induction false} MutexNeverReplaced(s: Locks, steps: seq<Step>, key: string)
    requires Inv(s) && key in s.table
    ensures Inv(Run(s, steps)) && key in Run(s, steps).table && Run(s, steps).table[key] == s.table[key]
  {
    if |steps| > 0 {
      MutexNeverReplaced(s, steps[..|steps| - 1], key);
      MoveKeeps(Run(s, steps[..|steps| - 1]), steps[|steps| - 1]);
    }
  }

  /** A thread ready to take a key gets it if and only if no thread holds that key: locks on
      other keys never stand in the way. A try that does not get it returns at once. */
  lemma TakenIffNobodyHolds(steps: seq<Step>, t: Thread)
    requires Run(Empty, steps).At(t).Waiting?
    ensures var s := Run(Empty, steps);
            var key := s.At(t).key;
            && (Holds(Move(s, Go(t)), t, key) <==> forall u: Thread :: !Holds(s, u, key))
            && (s.At(t).try ==> Move(s, Go(t)).At(t).Holding? || Move(s, Go(t)).At(t).Outside?)
  {
    EveryRunKeeps(steps);
    var s := Run(Empty, steps);
    var m := s.At(t).mutex;
    if m in s.owner {
      var u := s.owner[m];
      assert s.table[s.At(u).key] == m == s.table[s.At(t).key];
      assert Holds(s, u, s.At(t).key);
    } else {
      assert forall u: Thread :: s.At(u).Holding? ==> s.At(u).mutex in s.owner;
    }
  }

  /** Whoever holds the manager mutex is never blocked: two of its own steps release it. */
  lemma ManagerAlwaysReleased(steps: seq<Step>, t: Thread)
    requires Run(Empty, steps).manager == Some(t)
    ensures var s1 := Move(Run(Empty, steps), Go(t));
            s1.manager.None? || Move(s1, Go(t)).manager.None?
  {
    EveryRunKeeps(steps);
    assert Run(Empty, steps).At(t).Looking? || Run(Empty, steps).At(t).Found?;
  }

  /** Unlocking frees the key for the next taker. */
  lemma UnlockFrees(steps: seq<Step>, t: Thread, key: string)
    requires Holds(Run(Empty, steps), t, key)
    ensures forall u: Thread :: !Holds(Move(Run(Empty, steps), Go(t)), u, key)
  {
    EveryRunKeeps(steps);
    var s := Run(Empty, steps);
    forall u: Thread ensures !Holds(Move(s, Go(t)), u, key) {
      if Holds(s, u, key) { MutualExclusion(steps, t, u, key); }
    }
  }

  // ---------------------------------------------------------------------------
  // A whole call
  // ---------------------------------------------------------------------------

  /** The call and four steps of the thread itself: lock the manager, look up the key, unlock the
      manager, go for the key. */
  function Attempt(s: Locks, t: Thread, key: string, try: bool): Locks {
    Move(Move(Move(Move(Move(s, Call(t, key, try)), Go(t)), Go(t)), Go(t)), Go(t))
  }

  /** The same up to the point where the thread has the mutex of its key. */
  function Approach(s: Locks, t: Thread, key: string, try: bool): Locks {
    Move(Move(Move(Move(s, Call(t, key, try)), Go(t)), Go(t)), Go(t))
  }

  lemma ApproachFindsKey(s: Locks, t: Thread, key: string, try: bool)
    requires Inv(s) && s.At(t).Outside? && s.manager.None?
    ensures var s' := Approach(s, t, key, try);
            && s'.At(t).Waiting? && s'.At(t).key == key && s'.At(t).try == try
            && s'.manager.None? && s'.owner == s.owner
            && forall u: Thread :: u != t ==> s'.At(u) == s.At(u)
  {
    var s1 := Move(s, Call(t, key, try));
    var s2 := Move(s1, Go(t));
    var s3 := Move(s2, Go(t));
    assert s1.At(t) == Wanting(key, try) && s2.At(t) == Looking(key, try);
    assert s3.At(t).Found? && s3.At(t).key == key && s3.At(t).try == try;
  }

  lemma ApproachKeeps(s: Locks, t: Thread, key: string, try: bool)
    requires Inv(s)
    ensures Inv(Approach(s, t, key, try))
  {
    var s1 := Move(s, Call(t, key, try));
    var s2 := Move(s1, Go(t));
    var s3 := Move(s2, Go(t));
    MoveKeeps(s, Call(t, key, try));
    MoveKeeps(s1, Go(t));
    MoveKeeps(s2, Go(t));
    MoveKeeps(s3, Go(t));
  }

  ghost predicate Taken(s: Locks, key: string) {
    exists u: Thread :: Holds(s, u, key)
  }

  /** In every interleaving, the key a thread wants, waits for or holds is the one it last called
      for: it has not been outside since that call. */
  lemma {:induction false} KeyIsTheOneCalledFor(steps: seq<Step>, t: Thread) returns (i: nat)
    requires !Run(Empty, steps).At(t).Outside?
    ensures i < |steps| && steps[i].Call? && steps[i].t == t && steps[i].key == Run(Empty, steps).At(t).key
    ensures forall j :: i < j <= |steps| ==> !Run(Empty, steps[..j]).At(t).Outside?
  {
    var n := |steps| - 1;
    var before := Run(Empty, steps[..n]);
    assert steps[..|steps|] == steps;
    if before.At(t).Outside? {
      i := n;
    } else {
      i := KeyIsTheOneCalledFor(steps[..n], t);
      assert forall j :: i < j <= n ==> steps[..n][..j] == steps[..j];
      if steps[n].t != t { OthersStay(before, steps[n], t); }
    }
  }

  /** At the key mutex, from any state the invariant allows. */
  lemma AtTheMutex(s: Locks, t: Thread)
    requires Inv(s) && s.At(t).Waiting?
    ensures var key, s' := s.At(t).key, Move(s, Go(t));
            && (!Taken(s, key) ==> Holds(s', t, key))
            && (Taken(s, key) ==> if s.At(t).try then s'.At(t).Outside? else s' == s)
            && forall u: Thread :: u != t ==> s'.At(u) == s.At(u)
  {
    var key, m := s.At(t).key, s.At(t).mutex;
    if m in s.owner {
      var u := s.owner[m];
      assert s.table[s.At(u).key] == m == s.table[key];
      assert Holds(s, u, key);
    } else {
      assert forall u: Thread :: s.At(u).Holding? ==> s.At(u).mutex in s.owner;
    }
  }

  /** From every reachable state with the thread outside and the manager free: a call for a key
      gets that very key if nobody holds it, whatever is held on other keys; if somebody holds it,
      a blocking call waits for it and a try returns. Nobody else is affected. */
  lemma CallGetsItsKey(steps: seq<Step>, t: Thread, key: string, try: bool)
    requires var s := Run(Empty, steps); s.At(t).Outside? && s.manager.None?
    ensures var s, s' := Run(Empty, steps), Attempt(Run(Empty, steps), t, key, try);
            && (!Taken(s, key) ==> Holds(s', t, key))
            && (Taken(s, key) && try ==> s'.At(t).Outside?)
            && (Taken(s, key) && !try ==> s'.At(t).Waiting? && s'.At(t).key == key)
            && s'.manager.None?
            && forall u: Thread :: u != t ==> s'.At(u) == s.At(u)
  {
    EveryRunKeeps(steps);
    var s := Run(Empty, steps);
    var near := Approach(s, t, key, try);
    ApproachFindsKey(s, t, key, try);
    ApproachKeeps(s, t, key, try);
    assert Taken(near, key) <==> Taken(s, key) by {
      assert forall u: Thread :: Holds(near, u, key) <==> Holds(s, u, key);
    }
    AtTheMutex(near, t);
  }

  /** A waiting call gets its key with its next step once the holder has unlocked, and keeps
      waiting for that key until then. */
  lemma WaiterGetsItsKey(steps: seq<Step>, t: Thread, holder: Thread)
    requires var s := Run(Empty, steps);
             s.At(t).Waiting? && !s.At(t).try && Holds(s, holder, s.At(t).key)
    ensures var s := Run(Empty, steps);
            var key := s.At(t).key;
            Move(s, Go(t)) == s && Holds(Move(Move(s, Go(holder)), Go(t)), t, key)
  {
    EveryRunKeeps(steps);
    var s := Run(Empty, steps);
    var key := s.At(t).key;
    AtTheMutex(s, t);
    UnlockFrees(steps, holder, key);
    MoveKeeps(s, Go(holder));
    OthersStay(s, Go(holder), t);
    AtTheMutex(Move(s, Go(holder)), t);
  }
}
