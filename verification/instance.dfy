/** The snapshot of an autoscaling group's instances and the per-node `kubectl` loops. The two
    AWS describe calls and the command executions are oracle answers passed in; the commands
    issued are returned as a trace. */
module Instance {
  import opened Outcomes
  import opened Text
  import Cluster

  /** One node of the group: its instance id, private DNS name (the Kubernetes node name) and group. */
  datatype AwsInstance = AwsInstance(instanceId: string, privateDns: string, asgName: string)

  type AwsInstances = seq<AwsInstance>

  /** The number of instances in the snapshot. */
  function Count(a: AwsInstances): (n: nat)
  {
    |a|
  }

  /** Appending puts the record at the end and keeps the earlier ones. */
  function AppendInstance(a: AwsInstances, o: AwsInstance): (r: AwsInstances)
    ensures Count(r) == Count(a) + 1
    ensures r[..Count(a)] == a
    ensures r[Count(a)] == o
  {
    a + [o]
  }

  /* ---------------- building the snapshot ---------------- */

  /** One group as `DescribeAutoScalingGroups` describes it: the ids of its instances. */
  datatype GroupDescription = GroupDescription(instanceIds: seq<string>)

  /** One instance as `DescribeInstances` describes it. */
  datatype Ec2Instance = Ec2Instance(instanceId: string, privateDnsName: string, stateName: string)

  /** A reservation of `DescribeInstances`; only its first instance is looked at. */
  datatype Reservation = Reservation(instances: seq<Ec2Instance>)

  const Running := "running"

  /** Every reservation has a first instance, which the loop reads unconditionally. */
  predicate Readable(reservations: seq<Reservation>)
  {
    forall i | 0 <= i < |reservations| :: |reservations[i].instances| >= 1
  }

  predicate IsRunning(r: Reservation)
    requires |r.instances| >= 1
  {
    r.instances[0].stateName == Running
  }

  /** The snapshot record a reservation contributes. */
  function RecordOf(asgName: string, r: Reservation): (o: AwsInstance)
    requires |r.instances| >= 1
    ensures o.instanceId == r.instances[0].instanceId && o.privateDns == r.instances[0].privateDnsName
    ensures o.asgName == asgName
  {
    AwsInstance(r.instances[0].instanceId, r.instances[0].privateDnsName, asgName)
  }

  /** The snapshot after the reservation loop, and whether the loop ended the process because
      an instance was not running. */
  datatype Collected = Collected(instances: AwsInstances, exited: bool)

  /** The reservation loop: append one record per reservation, in order, as long as the first
      instance of each is running; the first one that is not ends the process. */
  function CollectRunning(a: AwsInstances, asgName: string, reservations: seq<Reservation>): (r: Collected)
    requires Readable(reservations)
    ensures !r.exited <==> forall i | 0 <= i < |reservations| :: IsRunning(reservations[i])
    ensures !r.exited ==> Count(r.instances) == Count(a) + |reservations|
    ensures Count(r.instances) >= Count(a) && r.instances[..Count(a)] == a
    ensures !r.exited ==> forall i | 0 <= i < |reservations| :: r.instances[Count(a) + i] == RecordOf(asgName, reservations[i])
    decreases |reservations|
  {
    if reservations == [] then Collected(a, false)
    else if !IsRunning(reservations[0]) then Collected(a, true)
    else
      var a' := AppendInstance(a, RecordOf(asgName, reservations[0]));
      var r := CollectRunning(a', asgName, reservations[1..]);
      assert forall i | 1 <= i < |reservations| :: reservations[i] == reservations[1..][i - 1];
      assert r.instances[..Count(a)] == r.instances[..Count(a')][..Count(a)];
      r
  }

  /** What `GetInstancesForASG` leaves behind: the snapshot, the instance ids sent to
      `DescribeInstances` (none if that call was not reached), and whether the process ended. */
  datatype Snapshot = Snapshot(instances: AwsInstances, describedIds: Option<seq<string>>, exited: bool)

  /** Describe the group, then its instances, then collect the running ones. A failure of either
      describe call is only logged: the snapshot is returned as it was. */
  function GetInstancesForASG(a: AwsInstances, asgName: string,
                              asgReply: Result<seq<GroupDescription>>, ec2Reply: Result<seq<Reservation>>): (r: Snapshot)
    requires asgReply.Success? ==> |asgReply.value| >= 1
    requires ec2Reply.Success? ==> Readable(ec2Reply.value)
    ensures asgReply.Failure? ==> r == Snapshot(a, None, false)
    ensures asgReply.Success? ==> r.describedIds == Some(asgReply.value[0].instanceIds)
    ensures asgReply.Success? && ec2Reply.Failure? ==> r.instances == a && !r.exited
    ensures asgReply.Success? && ec2Reply.Success? ==>
              (!r.exited <==> forall i | 0 <= i < |ec2Reply.value| :: IsRunning(ec2Reply.value[i]))
    ensures asgReply.Success? && ec2Reply.Success? && !r.exited ==>
              && Count(r.instances) == Count(a) + |ec2Reply.value|
              && r.instances[..Count(a)] == a
              && forall i | 0 <= i < |ec2Reply.value| :: r.instances[Count(a) + i] == RecordOf(asgName, ec2Reply.value[i])
  {
    match asgReply
    case Failure(_) => Snapshot(a, None, false)
    case Success(groups) =>
      var ids := Some(groups[0].instanceIds);
      match ec2Reply
      case Failure(_) => Snapshot(a, ids, false)
      case Success(reservations) =>
        var c := CollectRunning(a, asgName, reservations);
        Snapshot(c.instances, ids, c.exited)
  }

  /** The evidently intended build: a failure of either describe call ends the process, as every
      other failure of the command does, instead of leaving the snapshot as it was. */
  function GetInstancesForASGStrict(a: AwsInstances, asgName: string,
                                    asgReply: Result<seq<GroupDescription>>, ec2Reply: Result<seq<Reservation>>): (r: Snapshot)
    requires asgReply.Success? ==> |asgReply.value| >= 1
    requires ec2Reply.Success? ==> Readable(ec2Reply.value)
    ensures asgReply.Failure? || ec2Reply.Failure? ==> r.exited
    ensures GetInstancesForASG(a, asgName, asgReply, ec2Reply).exited ==> r.exited
    ensures asgReply.Success? && ec2Reply.Success? ==> r == GetInstancesForASG(a, asgName, asgReply, ec2Reply)
    ensures r.describedIds == GetInstancesForASG(a, asgName, asgReply, ec2Reply).describedIds
  {
    var s := GetInstancesForASG(a, asgName, asgReply, ec2Reply);
    if asgReply.Failure? || ec2Reply.Failure? then s.(exited := true) else s
  }

  /** Starting from an empty snapshot, a complete build holds exactly one record per reservation,
      in order, each naming the group passed in. */
  lemma SnapshotOfRunningGroup(asgName: string, groups: seq<GroupDescription>, reservations: seq<Reservation>)
    requires |groups| >= 1 && Readable(reservations)
    requires forall i | 0 <= i < |reservations| :: IsRunning(reservations[i])
    ensures var s := GetInstancesForASG([], asgName, Success(groups), Success(reservations));
            && !s.exited
            && Count(s.instances) == |reservations|
            && forall i | 0 <= i < |reservations| ::
                 s.instances[i].instanceId == reservations[i].instances[0].instanceId
                 && s.instances[i].privateDns == reservations[i].instances[0].privateDnsName
                 && s.instances[i].asgName == asgName
  {
    var c := CollectRunning([], asgName, reservations);
    assert forall i | 0 <= i < |reservations| :: c.instances[Count([]) + i] == RecordOf(asgName, reservations[i]);
  }

  /* ---------------- the node loops ---------------- */

  datatype NodeAction = Taint | Drain

  /** The argument vector run for one node: the command text split into fields. */
  function NodeArgs(action: NodeAction, node: string): seq<string>
  {
    match action
    case Taint => Fields(Cluster.KubectlTaintNodeCommand(node))
    case Drain => Fields(Cluster.KubectlDrainNodeCommand(node))
  }

  /** The argument vector of every node of the snapshot, in snapshot order. */
  function NodeArgsList(a: AwsInstances, action: NodeAction): (argvs: seq<seq<string>>)
    ensures |argvs| == |a|
    ensures forall i | 0 <= i < |a| :: argvs[i] == NodeArgs(action, a[i].privateDns)
    decreases |a|
  {
    if a == [] then []
    else
      var rest := NodeArgsList(a[1..], action);
      assert forall i | 1 <= i < |a| :: a[i] == a[1..][i - 1];
      [NodeArgs(action, a[0].privateDns)] + rest
  }

  /** The private DNS names of the snapshot, in order: the node names the loops address. */
  function Nodes(a: AwsInstances): (nodes: seq<string>)
    ensures |nodes| == |a|
    ensures forall i | 0 <= i < |a| :: nodes[i] == a[i].privateDns
  {
    seq(|a|, i requires 0 <= i < |a| => a[i].privateDns)
  }

  /** The nodes of the snapshot a loop of `action` commands reaches, in order: it stops at the
      first node whose command fails, because that failure ends the process. */
  function VisitNodes(action: NodeAction, a: AwsInstances, succeeds: (NodeAction, string) -> bool): (r: Loop<string>)
    ensures |r.issued| <= |a|
    ensures forall i | 0 <= i < |r.issued| :: r.issued[i] == a[i].privateDns
    ensures forall i | 0 <= i < |r.issued| - 1 :: succeeds(action, a[i].privateDns)
    ensures !r.exited <==> forall k | 0 <= k < |a| :: succeeds(action, a[k].privateDns)
    ensures !r.exited ==> |r.issued| == |a|
    ensures r.exited ==> |r.issued| > 0 && !succeeds(action, a[|r.issued| - 1].privateDns)
  {
    var nodes := Nodes(a);
    RunUntilFailure(nodes, node => succeeds(action, node))
  }

  /** The argument vectors a node loop ran, in order, and whether a failure ended the process. */
  datatype NodeRun = NodeRun(issued: seq<seq<string>>, exited: bool)

  /** One `kubectl` command per node of the snapshot, in order; `succeeds(action, node)` answers
      whether the command for that node succeeds, and the first failure ends the process. */
  function NodeLoop(action: NodeAction, a: AwsInstances, succeeds: (NodeAction, string) -> bool): (r: NodeRun)
    ensures |r.issued| <= |a|
    ensures forall i | 0 <= i < |r.issued| :: r.issued[i] == NodeArgs(action, a[i].privateDns)
    ensures forall i | 0 <= i < |r.issued| - 1 :: succeeds(action, a[i].privateDns)
    ensures !r.exited <==> forall k | 0 <= k < |a| :: succeeds(action, a[k].privateDns)
    ensures !r.exited ==> |r.issued| == |a|
    ensures r.exited ==> |r.issued| > 0 && !succeeds(action, a[|r.issued| - 1].privateDns)
  {
    var run := VisitNodes(action, a, succeeds);
    NodeRun(NodeArgsList(a[..|run.issued|], action), run.exited)
  }

  /** `kubectl taint` over the snapshot, node by node in order; the process ends at the first
      failing node. */
  function TaintNodes(a: AwsInstances, succeeds: (NodeAction, string) -> bool): (r: NodeRun)
    ensures |r.issued| <= |a|
    ensures forall i | 0 <= i < |r.issued| :: r.issued[i] == NodeArgs(Taint, a[i].privateDns)
    ensures forall i | 0 <= i < |r.issued| - 1 :: succeeds(Taint, a[i].privateDns)
    ensures !r.exited <==> forall k | 0 <= k < |a| :: succeeds(Taint, a[k].privateDns)
    ensures !r.exited ==> |r.issued| == |a|
    ensures r.exited ==> |r.issued| > 0 && !succeeds(Taint, a[|r.issued| - 1].privateDns)
  {
    NodeLoop(Taint, a, succeeds)
  }

  /** `kubectl drain` over the snapshot, node by node in order; the process ends at the first
      failing node. */
  function DrainNodes(a: AwsInstances, succeeds: (NodeAction, string) -> bool): (r: NodeRun)
    ensures |r.issued| <= |a|
    ensures forall i | 0 <= i < |r.issued| :: r.issued[i] == NodeArgs(Drain, a[i].privateDns)
    ensures forall i | 0 <= i < |r.issued| - 1 :: succeeds(Drain, a[i].privateDns)
    ensures !r.exited <==> forall k | 0 <= k < |a| :: succeeds(Drain, a[k].privateDns)
    ensures !r.exited ==> |r.issued| == |a|
    ensures r.exited ==> |r.issued| > 0 && !succeeds(Drain, a[|r.issued| - 1].privateDns)
  {
    NodeLoop(Drain, a, succeeds)
  }

  /** For a node whose DNS name is one token, the taint command names exactly that node. */
  lemma TaintArgsNameTheNode(node: string)
    requires IsToken(node)
    ensures NodeArgs(Taint, node) == ["kubectl", "taint", "nodes", node, Cluster.TaintSpec]
  {
    Cluster.TaintCommandArguments(node);
  }

  /** For a node whose DNS name is one token, the drain command names exactly that node. */
  lemma DrainArgsNameTheNode(node: string)
    requires IsToken(node)
    ensures NodeArgs(Drain, node) == ["kubectl", "drain", "--ignore-daemonsets", "--force", "--delete-local-data", node]
  {
    Cluster.DrainCommandArguments(node);
  }
}
