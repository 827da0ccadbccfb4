/** The failure detector of the HA package: periodic checks of every node's last heartbeat
    against a threshold of three heartbeat intervals. */
module FailureDetector {
  import opened Common

  datatype Status = Online | Offline | Fenced
  datatype Node = Node(name: string, status: Status, lastSeen: int)

  /** `Down` runs the registered callbacks, `Recovered` only clears the mark. */
  datatype Event = Down(name: string) | Recovered(name: string)

  datatype Detector = Detector(failed: set<string>, log: seq<Event>)

  predicate Overdue(node: Node, now: int, threshold: int) {
    now - node.lastSeen > threshold
  }

  /** One node of one check. */
  function Inspect(d: Detector, node: Node, now: int, threshold: int): Detector {
    var wasFailed := node.name in d.failed;
    if node.status == Fenced then d
    else if Overdue(node, now, threshold) && node.status == Online then
      if wasFailed then d
      else Detector(d.failed + {node.name}, d.log + [Down(node.name)])
    else if wasFailed && !Overdue(node, now, threshold) then
      Detector(d.failed - {node.name}, d.log + [Recovered(node.name)])
    else d
  }

  function InspectAll(d: Detector, nodes: seq<Node>, now: int, threshold: int): Detector {
    if |nodes| == 0 then d
    else Inspect(InspectAll(d, nodes[..|nodes| - 1], now, threshold), nodes[|nodes| - 1], now, threshold)
  }

  /** `None` is a failing node listing: the check is skipped. */
  datatype Check = Check(now: int, nodes: Option<seq<Node>>)

  function CheckOnce(d: Detector, c: Check, threshold: int): Detector {
    if c.nodes.None? then d else InspectAll(d, c.nodes.value, c.now, threshold)
  }

  function Run(d: Detector, checks: seq<Check>, threshold: int): Detector {
    if |checks| == 0 then d
    else CheckOnce(Run(d, checks[..|checks| - 1], threshold), checks[|checks| - 1], threshold)
  }

  const Fresh := Detector({}, [])

  class FailureDetector {
    const watchInterval: int
    const failureThreshold: int
    var failed: set<string>
    ghost var log: seq<Event>

    ghost function View(): Detector
      reads this
    {
      Detector(failed, log)
    }

    constructor (heartbeatInterval: int)
      ensures watchInterval == heartbeatInterval && failureThreshold == 3 * heartbeatInterval
      ensures View() == Fresh
    {
      watchInterval, failureThreshold := heartbeatInterval, heartbeatInterval * 3;
      failed, log := {}, [];
    }

    method CheckNodes(nodes: Option<seq<Node>>, now: int)
      modifies this
      ensures View() == CheckOnce(old(View()), Check(now, nodes), failureThreshold)
    {
      if nodes.None? {
        return;
      }
      var list := nodes.value;
      for k := 0 to |list|
        invariant View() == InspectAll(old(View()), list[..k], now, failureThreshold)
      {
        assert list[..k + 1][..k] == list[..k];
        var node := list[k];
        if node.status == Fenced {
          continue;
        }
        var elapsed := now - node.lastSeen;
        var wasFailed := node.name in failed;
        if elapsed > failureThreshold && node.status == Online {
          if !wasFailed {
            failed := failed + {node.name};
            log := log + [Down(node.name)];
          }
        } else if wasFailed && elapsed <= failureThreshold {
          failed := failed - {node.name};
          log := log + [Recovered(node.name)];
        }
      }
      assert list[..|list|] == list;
    }
  }

  // ---------------------------------------------------------------------------
  // Alternation
  // ---------------------------------------------------------------------------

  /** Whether the latest event of this node is a down-report. */
  predicate LastWasDown(log: seq<Event>, name: string) {
    |log| > 0 &&
      var last := log[|log| - 1];
      if last.name == name then last.Down? else LastWasDown(log[..|log| - 1], name)
  }

  /** The node's events are Down, Recovered, Down, Recovered, and so on: a report comes
      exactly where the latest event of the node, if any, is not a report. */
  ghost predicate Alternates(log: seq<Event>, name: string) {
    forall i :: 0 <= i < |log| && log[i].name == name ==> (log[i].Down? <==> !LastWasDown(log[..i], name))
  }

  /** The mark on a node says which of the two came last. */
  ghost predicate Consistent(d: Detector, name: string) {
    && Alternates(d.log, name)
    && (name in d.failed <==> LastWasDown(d.log, name))
  }

  lemma LogOne(log: seq<Event>, e: Event, name: string)
    requires Alternates(log, name)
    requires e.name == name ==> (e.Down? <==> !LastWasDown(log, name))
    ensures Alternates(log + [e], name)
    ensures LastWasDown(log + [e], name) <==> if e.name == name then e.Down? else LastWasDown(log, name)
  {
    var log' := log + [e];
    assert log'[..|log|] == log;
    forall i | 0 <= i < |log'| && log'[i].name == name
      ensures log'[i].Down? <==> !LastWasDown(log'[..i], name)
    {
      if i < |log| { assert log'[..i] == log[..i] && log'[i] == log[i]; }
    }
  }

  /** Setting a mark that is clear, or clearing one that is set, with its event. */
  lemma MarkConsistent(d: Detector, marked: string, name: string)
    requires Consistent(d, name)
    ensures marked !in d.failed ==> Consistent(Detector(d.failed + {marked}, d.log + [Down(marked)]), name)
    ensures marked in d.failed ==> Consistent(Detector(d.failed - {marked}, d.log + [Recovered(marked)]), name)
  {
    LogOne(d.log, if marked in d.failed then Recovered(marked) else Down(marked), name);
  }

  lemma InspectConsistent(d: Detector, node: Node, now: int, threshold: int, name: string)
    requires Consistent(d, name)
    ensures Consistent(Inspect(d, node, now, threshold), name)
  {
    MarkConsistent(d, node.name, name);
  }

  lemma {:induction false} InspectAllConsistent(d: Detector, nodes: seq<Node>, now: int, threshold: int, name: string)
    requires Consistent(d, name)
    ensures Consistent(InspectAll(d, nodes, now, threshold), name)
  {
    if |nodes| > 0 {
      var front := nodes[..|nodes| - 1];
      InspectAllConsistent(d, front, now, threshold, name);
      InspectConsistent(InspectAll(d, front, now, threshold), nodes[|nodes| - 1], now, threshold, name);
    }
  }

  /** In every run, whatever the listings say, down-reports and recoveries of each node
      strictly alternate, beginning with a down-report. */
  lemma {:induction false} ReportsAlternate(checks: seq<Check>, threshold: int, name: string)
    ensures Consistent(Run(Fresh, checks, threshold), name)
  {
    if |checks| > 0 {
      var front, c := checks[..|checks| - 1], checks[|checks| - 1];
      ReportsAlternate(front, threshold, name);
      if c.nodes.Some? {
        InspectAllConsistent(Run(Fresh, front, threshold), c.nodes.value, c.now, threshold, name);
      }
    }
  }

  // ---------------------------------------------------------------------------
  // No false reports
  // ---------------------------------------------------------------------------

  /** No entry for this node is both online and past the threshold. */
  ghost predicate NeverDue(c: Check, name: string, threshold: int) {
    c.nodes.Some? ==>
      forall node :: node in c.nodes.value && node.name == name ==>
        node.status != Online || !Overdue(node, c.now, threshold)
  }

  ghost predicate Reported(d: Detector, name: string) {
    exists i :: 0 <= i < |d.log| && d.log[i] == Down(name)
  }

  lemma {:induction false} InspectAllQuiet(d: Detector, nodes: seq<Node>, now: int, threshold: int, name: string)
    requires !Reported(d, name)
    requires NeverDue(Check(now, Some(nodes)), name, threshold)
    ensures !Reported(InspectAll(d, nodes, now, threshold), name)
  {
    if |nodes| > 0 {
      var front, last := nodes[..|nodes| - 1], nodes[|nodes| - 1];
      assert forall n :: n in front ==> n in nodes;
      InspectAllQuiet(d, front, now, threshold, name);
      assert last in nodes;
    }
  }

  /** A node that is never online and past the threshold at a check is never reported. */
  lemma {:induction false} NoFalseReports(checks: seq<Check>, threshold: int, name: string)
    requires forall c :: c in checks ==> NeverDue(c, name, threshold)
    ensures !Reported(Run(Fresh, checks, threshold), name)
  {
    if |checks| > 0 {
      var front, c := checks[..|checks| - 1], checks[|checks| - 1];
      assert forall x :: x in front ==> x in checks;
      NoFalseReports(front, threshold, name);
      assert c in checks;
      if c.nodes.Some? {
        InspectAllQuiet(Run(Fresh, front, threshold), c.nodes.value, c.now, threshold, name);
      }
    }
  }

  // ---------------------------------------------------------------------------
  // Detection of a silent node
  // ---------------------------------------------------------------------------

  /** Every entry for the node is online with its last heartbeat at `seen`. */
  ghost predicate OnlyAs(nodes: seq<Node>, name: string, seen: int) {
    forall node :: node in nodes && node.name == name ==> node == Node(name, Online, seen)
  }

  ghost predicate ListsSilent(nodes: seq<Node>, name: string, seen: int) {
    OnlyAs(nodes, name, seen) && exists node :: node in nodes && node.name == name
  }

  /** How often an event occurs in the log. */
  function Count(log: seq<Event>, e: Event): nat {
    if |log| == 0 then 0
    else Count(log[..|log| - 1], e) + if log[|log| - 1] == e then 1 else 0
  }

  lemma CountOne(log: seq<Event>, e: Event, x: Event)
    ensures Count(log + [e], x) == Count(log, x) + if e == x then 1 else 0
  {
    assert (log + [e])[..|log|] == log;
  }

  /** The mark went from `before` to `after`, and the log gained exactly that event. */
  ghost predicate Logged(d: Detector, d': Detector, name: string) {
    && Count(d'.log, Down(name)) == Count(d.log, Down(name))
         + (if name !in d.failed && name in d'.failed then 1 else 0)
    && Count(d'.log, Recovered(name)) == Count(d.log, Recovered(name))
         + (if name in d.failed && name !in d'.failed then 1 else 0)
  }

  lemma SilentOne(d: Detector, node: Node, now: int, threshold: int, name: string, seen: int)
    requires node.name == name ==> node == Node(name, Online, seen)
    ensures var d' := Inspect(d, node, now, threshold);
            && (name in d'.failed <==> if node.name == name then now - seen > threshold else name in d.failed)
            && Logged(d, d', name)
  {
    var d' := Inspect(d, node, now, threshold);
    if d' != d {
      var e := if node.name in d.failed then Recovered(node.name) else Down(node.name);
      CountOne(d.log, e, Down(name));
      CountOne(d.log, e, Recovered(name));
    }
  }

  /** Checking the silent node brings its mark in line with its age, and logs the change if
      there is one. */
  lemma {:induction false} SilentInspection(
    d: Detector, nodes: seq<Node>, now: int, threshold: int, name: string, seen: int)
    requires OnlyAs(nodes, name, seen)
    ensures var d' := InspectAll(d, nodes, now, threshold);
            var listed := exists node :: node in nodes && node.name == name;
            && (name in d'.failed <==> if listed then now - seen > threshold else name in d.failed)
            && Logged(d, d', name)
  {
    if |nodes| > 0 {
      var front, last := nodes[..|nodes| - 1], nodes[|nodes| - 1];
      assert nodes == front + [last];
      assert forall n :: n in front ==> n in nodes;
      SilentInspection(d, front, now, threshold, name, seen);
      assert last in nodes;
      SilentOne(InspectAll(d, front, now, threshold), last, now, threshold, name, seen);
    }
  }

  /** The clock never goes back. */
  ghost predicate Clocked(checks: seq<Check>) {
    forall k :: 0 <= k < |checks| - 1 ==> checks[k].now <= checks[k + 1].now
  }

  ghost predicate SilentThroughout(checks: seq<Check>, name: string, seen: int) {
    forall k :: 0 <= k < |checks| ==>
      checks[k].nodes.Some? && ListsSilent(checks[k].nodes.value, name, seen)
  }

  predicate DueAtEnd(checks: seq<Check>, deadline: int) {
    |checks| > 0 && checks[|checks| - 1].now > deadline
  }

  /** As long as the node is silent, its mark follows its age: one report, no recovery. */
  lemma {:induction false} SilentRun(d: Detector, checks: seq<Check>, threshold: int, name: string, seen: int)
    requires name !in d.failed && SilentThroughout(checks, name, seen) && Clocked(checks)
    ensures var d' := Run(d, checks, threshold);
            && (name in d'.failed <==> DueAtEnd(checks, seen + threshold))
            && Logged(d, d', name)
  {
    if |checks| > 0 {
      var front, c := checks[..|checks| - 1], checks[|checks| - 1];
      if |front| > 0 {
        assert front[|front| - 1].now <= c.now by { assert checks[|front| - 1].now <= checks[|front| - 1 + 1].now; }
      }
      SilentRun(d, front, threshold, name, seen);
      SilentInspection(Run(d, front, threshold), c.nodes.value, c.now, threshold, name, seen);
    }
  }

  /** The first check past a deadline. */
  ghost predicate FirstPast(checks: seq<Check>, deadline: int, k: nat) {
    && k < |checks| && checks[k].now > deadline
    && forall j :: 0 <= j < k ==> checks[j].now <= deadline
  }

  lemma Chop(checks: seq<Check>, k: nat, name: string, seen: int)
    requires k <= |checks| && Clocked(checks) && SilentThroughout(checks, name, seen)
    ensures Clocked(checks[..k]) && SilentThroughout(checks[..k], name, seen)
  {
  }

  lemma {:induction false} StaysPast(checks: seq<Check>, k: nat, n: nat)
    requires Clocked(checks) && k <= n < |checks|
    ensures checks[k].now <= checks[n].now
  {
    if k < n {
      StaysPast(checks, k, n - 1);
      assert checks[n - 1].now <= checks[n - 1 + 1].now;
    }
  }

  /** An online node that falls silent is reported exactly once: not before the first check
      past the threshold, by that check, and never again or recovered while it stays silent,
      however late or irregular the checks are. */
  lemma SilentNodeIsReported(
    d: Detector, checks: seq<Check>, threshold: int, name: string, seen: int, k: nat, n: nat)
    requires name !in d.failed && SilentThroughout(checks, name, seen) && Clocked(checks)
    requires FirstPast(checks, seen + threshold, k) && n <= |checks|
    ensures var d' := Run(d, checks[..n], threshold);
            && (name in d'.failed <==> n > k)
            && Count(d'.log, Down(name)) == Count(d.log, Down(name)) + (if n > k then 1 else 0)
            && Count(d'.log, Recovered(name)) == Count(d.log, Recovered(name))
  {
    Chop(checks, n, name, seen);
    SilentRun(d, checks[..n], threshold, name, seen);
    if n > k { StaysPast(checks, k, n - 1); }
  }

  /** Checks that run on time: never more than one interval apart. */
  ghost predicate OnTime(checks: seq<Check>, interval: int) {
    forall k :: 0 <= k < |checks| - 1 ==> checks[k + 1].now <= checks[k].now + interval
  }

  /** With timely checks the report comes within four heartbeat intervals of the last sign of
      life, whatever the node does in the meantime. */
  lemma ReportedWithinFourIntervals(checks: seq<Check>, interval: int, seen: int, k: nat)
    requires OnTime(checks, interval) && FirstPast(checks, seen + 3 * interval, k)
    requires checks[0].now <= seen + 3 * interval
    ensures seen + 3 * interval < checks[k].now <= seen + 4 * interval
  {
    assert checks[k - 1 + 1].now <= checks[k - 1].now + interval;
  }

  /** A node marked failed whose heartbeat returns is cleared by the next check that sees the
      fresh heartbeat, and can then be reported again. */
  lemma HeartbeatClears(d: Detector, nodes: seq<Node>, now: int, threshold: int, name: string, seen: int)
    requires name in d.failed && ListsSilent(nodes, name, seen) && now - seen <= threshold
    ensures var d' := CheckOnce(d, Check(now, Some(nodes)), threshold);
            && name !in d'.failed
            && Count(d'.log, Recovered(name)) == Count(d.log, Recovered(name)) + 1
            && Count(d'.log, Down(name)) == Count(d.log, Down(name))
  {
    SilentInspection(d, nodes, now, threshold, name, seen);
  }

  // ---------------------------------------------------------------------------
  // One entry of a listing
  // ---------------------------------------------------------------------------

  /** A fenced entry changes nothing. An entry that is online and overdue reports the node unless
      it is marked already. An entry that is not overdue clears the mark, online or offline. Any
      other entry changes nothing, and no entry touches another node. */
  lemma WhatAnEntryDoes(d: Detector, node: Node, now: int, threshold: int)
    ensures var d', late := Inspect(d, node, now, threshold), now > node.lastSeen + threshold;
            var marked := node.name in d.failed;
            if node.status != Fenced && node.status != Offline && late && !marked then
              d'.failed == d.failed + {node.name} && d'.log == d.log + [Down(node.name)]
            else if node.status != Fenced && !late && marked then
              d'.failed == d.failed - {node.name} && d'.log == d.log + [Recovered(node.name)]
            else d' == d
  {
  }

  /** Every entry of the node has this status and time. */
  ghost predicate ListedAs(nodes: seq<Node>, name: string, status: Status, seen: int) {
    forall node :: node in nodes && node.name == name ==> node == Node(name, status, seen)
  }

  /** A marked node that is fenced keeps its mark; one that has gone offline loses it exactly when
      it has been seen within the threshold. Neither is reported again. */
  lemma {:induction false} MarkOfAbsentNode(
    d: Detector, nodes: seq<Node>, now: int, threshold: int, name: string, status: Status, seen: int)
    requires status != Online && ListedAs(nodes, name, status, seen)
    ensures var d' := InspectAll(d, nodes, now, threshold);
            && Count(d'.log, Down(name)) == Count(d.log, Down(name))
            && (name in d'.failed <==>
                  name in d.failed
                  && (status == Fenced || now - seen > threshold || forall node :: node in nodes ==> node.name != name))
  {
    if |nodes| > 0 {
      var front, last := nodes[..|nodes| - 1], nodes[|nodes| - 1];
      assert nodes == front + [last];
      MarkOfAbsentNode(d, front, now, threshold, name, status, seen);
      AbsentEntry(InspectAll(d, front, now, threshold), last, now, threshold, name, status, seen);
      assert (forall node :: node in nodes ==> node.name != name) <==>
             (forall node :: node in front ==> node.name != name) && last.name != name;
    }
  }

  lemma AbsentEntry(d: Detector, node: Node, now: int, threshold: int, name: string, status: Status, seen: int)
    requires status != Online && (node.name == name ==> node == Node(name, status, seen))
    ensures var d' := Inspect(d, node, now, threshold);
            && Count(d'.log, Down(name)) == Count(d.log, Down(name))
            && (name in d'.failed <==>
                  name in d.failed && (node.name != name || status == Fenced || now - seen > threshold))
  {
    WhatAnEntryDoes(d, node, now, threshold);
    CountOne(d.log, Down(node.name), Down(name));
    CountOne(d.log, Recovered(node.name), Down(name));
  }
}
