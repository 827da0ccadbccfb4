/** Failover: when a node goes down, the leader moves its VMs to another node. */
module Failover {
  import opened Common
  import opened FailureDetector

  datatype VM = VM(handle: int, name: string, node: string, policy: string)

  /** The HA driver as target selection sees it. */
  datatype Driver = NoDriver | ListingFails | Lists(nodes: seq<Node>)

  ghost predicate UniqueHandles(vms: seq<VM>) {
    forall i, j :: 0 <= i < j < |vms| ==> vms[i].handle != vms[j].handle
  }

  // ---------------------------------------------------------------------------
  // Target selection
  // ---------------------------------------------------------------------------

  predicate Eligible(node: Node, exclude: string) {
    node.name != exclude && node.status == Online
  }

  function FirstEligible(nodes: seq<Node>, exclude: string): (name: string)
    ensures (exists n :: n in nodes && Eligible(n, exclude) && n.name == name)
            || (name == "" && forall n :: n in nodes ==> !Eligible(n, exclude))
  {
    if |nodes| == 0 then ""
    else if Eligible(nodes[0], exclude) then nodes[0].name
    else FirstEligible(nodes[1..], exclude)
  }

  function Target(driver: Driver, exclude: string): string {
    match driver
    case NoDriver => "local"
    case ListingFails => "local"
    case Lists(nodes) => FirstEligible(nodes, exclude)
  }

  method SelectTargetNode(driver: Driver, exclude: string) returns (target: string)
    ensures target == Target(driver, exclude)
  {
    if !driver.Lists? {
      return "local";
    }
    var nodes := driver.nodes;
    for k := 0 to |nodes|
      invariant FirstEligible(nodes, exclude) == FirstEligible(nodes[k..], exclude)
    {
      if Eligible(nodes[k], exclude) {
        return nodes[k].name;
      }
      assert nodes[k..][1..] == nodes[k + 1..];
    }
    return "";
  }

  /** The first node of the listing that is online and not the failed one. */
  lemma {:induction false} TargetIsTheFirst(nodes: seq<Node>, exclude: string, k: nat)
    requires k < |nodes| && nodes[k].name != exclude && nodes[k].status == Online
    requires forall j :: 0 <= j < k ==> nodes[j].name == exclude || nodes[j].status != Online
    ensures Target(Lists(nodes), exclude) == nodes[k].name
  {
    if k > 0 {
      assert !Eligible(nodes[0], exclude);
      assert forall j :: 0 <= j < |nodes[1..]| ==> nodes[1..][j] == nodes[j + 1];
      TargetIsTheFirst(nodes[1..], exclude, k - 1);
    }
  }

  /** Without a listing the target is "local", whichever node failed; with a listing that has no
      such node there is none. */
  lemma TargetWithoutNodes(driver: Driver, failed: string)
    ensures !driver.Lists? ==> Target(driver, failed) == "local"
    ensures driver.Lists? && (forall n :: n in driver.nodes ==> n.name == failed || n.status != Online) ==>
              Target(driver, failed) == ""
  {
    if driver.Lists? && forall n :: n in driver.nodes ==> n.name == failed || n.status != Online {
      assert forall n :: n in driver.nodes ==> !Eligible(n, failed);
    }
  }

  /** The chosen node differs from the failed one, except when the fallback name "local" is
      itself the failed node. */
  lemma TargetIsElsewhereIff(driver: Driver, failed: string)
    requires failed != ""
    ensures Target(driver, failed) != failed <==> !(!driver.Lists? && failed == "local")
  {
  }

  // ---------------------------------------------------------------------------
  // The effect on placement
  // ---------------------------------------------------------------------------

  /** What a node failure does to one VM, given the target and which migrations succeed. */
  function Moved(vm: VM, failed: string, target: string, succeeds: int -> bool): VM {
    if vm.node == failed && vm.policy != "never" && succeeds(vm.handle) then vm.(node := target) else vm
  }

  function AllMoved(vms: seq<VM>, failed: string, target: string, succeeds: int -> bool): (r: seq<VM>)
    ensures |r| == |vms|
  {
    seq(|vms|, i requires 0 <= i < |vms| => Moved(vms[i], failed, target, succeeds))
  }

  /** `election` is None when no election is configured; a manager then acts as leader. */
  function Outcome(
    vms: seq<VM>, election: Option<bool>, driver: Driver, failed: string, succeeds: int -> bool): (r: seq<VM>)
    ensures |r| == |vms|
  {
    if election == Some(false) || Target(driver, failed) == "" then vms
    else AllMoved(vms, failed, Target(driver, failed), succeeds)
  }

  /** With a driver whose listing succeeds, another online node and successful migrations, a
      leader leaves on the failed node exactly its "never" VMs, moves the others to one
      online node, and touches nothing else. */
  lemma LeaderEvacuates(vms: seq<VM>, election: Option<bool>, nodes: seq<Node>, failed: string, succeeds: int -> bool)
    requires election != Some(false)
    requires exists n :: n in nodes && Eligible(n, failed)
    requires forall n :: n in nodes ==> n.name != ""
    requires forall h :: succeeds(h)
    ensures var target := FirstEligible(nodes, failed);
            var after := Outcome(vms, election, Lists(nodes), failed, succeeds);
            && target != failed
            && (exists n :: n in nodes && n.name == target && n.status == Online)
            && |after| == |vms|
            && (forall i :: 0 <= i < |vms| ==>
                  && (after[i].node == failed <==> vms[i].node == failed && vms[i].policy == "never")
                  && (vms[i].node == failed && vms[i].policy != "never" ==> after[i] == vms[i].(node := target))
                  && (vms[i].node != failed ==> after[i] == vms[i]))
  {
    var target := FirstEligible(nodes, failed);
    assert target != "";
  }

  /** A non-leader changes nothing, and neither does a leader without a node to move to. */
  lemma NothingMovesIff(vms: seq<VM>, election: Option<bool>, driver: Driver, failed: string, succeeds: int -> bool)
    requires Target(driver, failed) != failed
    ensures Outcome(vms, election, driver, failed, succeeds) == vms <==>
              || election == Some(false)
              || Target(driver, failed) == ""
              || forall vm :: vm in vms && vm.node == failed ==> vm.policy == "never" || !succeeds(vm.handle)
  {
    var after := Outcome(vms, election, driver, failed, succeeds);
    if after == vms && election != Some(false) && Target(driver, failed) != "" {
      forall vm | vm in vms && vm.node == failed ensures vm.policy == "never" || !succeeds(vm.handle) {
        var i :| 0 <= i < |vms| && vms[i] == vm;
        assert after[i] == Moved(vm, failed, Target(driver, failed), succeeds);
      }
    }
  }

  /** Without a driver, a VM of the node "local" is migrated from that node to itself. */
  lemma FallbackIsFailedNode(election: Option<bool>, succeeds: int -> bool)
    requires election != Some(false)
    ensures Target(NoDriver, "local") == "local"
    ensures var vms := [VM(1, "web", "local", "always")];
            Outcome(vms, election, NoDriver, "local", succeeds) == vms
  {
  }

  // ---------------------------------------------------------------------------
  // The documented policies
  // ---------------------------------------------------------------------------

  /** The policies the handler says it migrates; no policy means "always". */
  predicate Documented(policy: string) { policy in ["always", "on-failure", ""] }

  /** The placement its comment promises: as the code's, but only VMs with such a policy move. */
  function Promised(
    vms: seq<VM>, election: Option<bool>, driver: Driver, failed: string, succeeds: int -> bool): (r: seq<VM>)
    ensures |r| == |vms|
  {
    var target := Target(driver, failed);
    if election == Some(false) || target == "" then vms
    else
      seq(|vms|, i requires 0 <= i < |vms| =>
        if vms[i].node == failed && Documented(vms[i].policy) && succeeds(vms[i].handle)
        then vms[i].(node := target) else vms[i])
  }

  /** The promise is kept exactly when nothing is moved at all, or no VM that can be moved has
      a policy other than those and "never". */
  lemma PolicyPromiseIff(
    vms: seq<VM>, election: Option<bool>, driver: Driver, failed: string, succeeds: int -> bool)
    ensures Outcome(vms, election, driver, failed, succeeds) == Promised(vms, election, driver, failed, succeeds)
            <==> || election == Some(false) || Target(driver, failed) == "" || Target(driver, failed) == failed
                 || forall vm :: vm in vms && vm.node == failed && succeeds(vm.handle) ==>
                      Documented(vm.policy) || vm.policy == "never"
  {
    var after := Outcome(vms, election, driver, failed, succeeds);
    var promised := Promised(vms, election, driver, failed, succeeds);
    if after == promised && election != Some(false) && Target(driver, failed) !in ["", failed] {
      forall vm | vm in vms && vm.node == failed && succeeds(vm.handle)
        ensures Documented(vm.policy) || vm.policy == "never"
      {
        var i :| 0 <= i < |vms| && vms[i] == vm;
        assert after[i] == promised[i];
      }
    }
  }

  /** A VM with a policy of another name is moved like one with "always". */
  lemma UnknownPolicyMoves(seen: int)
    ensures var vms := [VM(1, "web", "a", "manual")];
            var nodes := [Node("b", Online, seen)];
            && Outcome(vms, None, Lists(nodes), "a", _ => true) == [VM(1, "web", "b", "manual")]
            && Promised(vms, None, Lists(nodes), "a", _ => true) == vms
  {
    var vms := [VM(1, "web", "a", "manual")];
    var driver := Lists([Node("b", Online, seen)]);
    assert "b"[0] != "a"[0] && "manual"[0] != "always"[0] && |"manual"| != |"never"|;
    assert Target(driver, "a") == "b" && !Documented("manual");
    var after := Outcome(vms, None, driver, "a", _ => true);
    assert after[0] == Moved(vms[0], "a", "b", _ => true);
  }

  // ---------------------------------------------------------------------------
  // The manager and its compute provider
  // ---------------------------------------------------------------------------

  function Placed(vm: VM, handle: int, target: string): VM {
    if vm.handle == handle then vm.(node := target) else vm
  }

  class ComputeProvider {
    var vms: seq<VM>

    constructor (initial: seq<VM>)
      ensures vms == initial
    {
      vms := initial;
    }

    /** `ok` is the outcome of the migration, including the lock around it. */
    method MigrateVM(handle: int, target: string, ok: bool)
      modifies this
      ensures |vms| == |old(vms)|
      ensures forall i :: 0 <= i < |vms| ==>
                vms[i] == if ok then Placed(old(vms)[i], handle, target) else old(vms)[i]
    {
      if !ok {
        return;
      }
      for k := 0 to |vms|
        invariant |vms| == |old(vms)|
        invariant forall i :: 0 <= i < |vms| ==>
                    vms[i] == if i < k then Placed(old(vms)[i], handle, target) else old(vms)[i]
      {
        if vms[k].handle == handle {
          vms := vms[k := vms[k].(node := target)];
        }
      }
    }
  }

  /** The VMs of the listing that were on the failed node. */
  method CollectAffected(listed: seq<VM>, failed: string) returns (affected: seq<VM>)
    ensures forall vm :: vm in affected <==> vm in listed && vm.node == failed
  {
    affected := [];
    for k := 0 to |listed|
      invariant forall vm :: vm in affected <==> vm in listed[..k] && vm.node == failed
    {
      assert listed[..k + 1] == listed[..k] + [listed[k]];
      if listed[k].node == failed {
        affected := affected + [listed[k]];
      }
    }
    assert listed[..|listed|] == listed;
  }

  /** The placement once the VMs in `done` have been dealt with. */
  ghost predicate Progressed(
    now: seq<VM>, listed: seq<VM>, done: seq<VM>, failed: string, target: string, succeeds: int -> bool)
  {
    && |now| == |listed|
    && forall i :: 0 <= i < |listed| ==>
         now[i] == if listed[i] in done then Moved(listed[i], failed, target, succeeds) else listed[i]
  }

  lemma SkippedVM(
    now: seq<VM>, listed: seq<VM>, done: seq<VM>, vm: VM,
    failed: string, target: string, succeeds: int -> bool)
    requires Progressed(now, listed, done, failed, target, succeeds) && Moved(vm, failed, target, succeeds) == vm
    ensures Progressed(now, listed, done + [vm], failed, target, succeeds)
  {
  }

  lemma MigratedVM(
    now: seq<VM>, now': seq<VM>, listed: seq<VM>, done: seq<VM>, vm: VM,
    failed: string, target: string, succeeds: int -> bool)
    requires Progressed(now, listed, done, failed, target, succeeds) && UniqueHandles(listed)
    requires vm in listed && vm.node == failed && vm.policy != "never"
    requires |now'| == |now|
    requires forall i :: 0 <= i < |now| ==>
               now'[i] == if succeeds(vm.handle) then Placed(now[i], vm.handle, target) else now[i]
    ensures Progressed(now', listed, done + [vm], failed, target, succeeds)
  {
    var j :| 0 <= j < |listed| && listed[j] == vm;
    forall i | 0 <= i < |listed|
      ensures now'[i] == if listed[i] in done + [vm] then Moved(listed[i], failed, target, succeeds) else listed[i]
    {
      assert now[i].handle == listed[i].handle;
      assert listed[i].handle == vm.handle <==> i == j;
    }
  }

  /** The migration loop over the affected VMs. */
  method MigrateAffected(
    provider: ComputeProvider, affected: seq<VM>, failed: string, target: string, succeeds: int -> bool)
    requires UniqueHandles(provider.vms)
    requires forall vm :: vm in affected <==> vm in provider.vms && vm.node == failed
    modifies provider
    ensures provider.vms == AllMoved(old(provider.vms), failed, target, succeeds)
  {
    ghost var listed := provider.vms;
    for k := 0 to |affected|
      invariant Progressed(provider.vms, listed, affected[..k], failed, target, succeeds)
    {
      var vm := affected[k];
      ghost var before := provider.vms;
      assert affected[..k + 1] == affected[..k] + [vm];
      var policy := if vm.policy == "" then "always" else vm.policy;
      if policy == "never" {
        SkippedVM(before, listed, affected[..k], vm, failed, target, succeeds);
        continue;
      }
      provider.MigrateVM(vm.handle, target, succeeds(vm.handle));
      MigratedVM(before, provider.vms, listed, affected[..k], vm, failed, target, succeeds);
    }
    assert affected[..|affected|] == affected;
    assert forall i :: 0 <= i < |listed| && listed[i] !in affected ==> listed[i].node != failed;
  }

  /** `provider` is null when none has been set. */
  method HandleNodeDown(
    provider: ComputeProvider?, election: Option<bool>, driver: Driver, failed: string, succeeds: int -> bool)
    requires provider != null ==> UniqueHandles(provider.vms)
    modifies provider
    ensures provider != null ==>
              provider.vms == Outcome(old(provider.vms), election, driver, failed, succeeds)
  {
    if election == Some(false) {
      return;
    }
    if provider == null {
      return;
    }
    var affected := CollectAffected(provider.vms, failed);
    if |affected| == 0 {
      assert forall vm :: vm in provider.vms ==> vm.node != failed;
      assert AllMoved(provider.vms, failed, Target(driver, failed), succeeds) == provider.vms;
      return;
    }
    var target := SelectTargetNode(driver, failed);
    if target == "" {
      return;
    }
    MigrateAffected(provider, affected, failed, target, succeeds);
  }
}
