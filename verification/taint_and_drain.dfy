/** The `taint-and-drain-asg` command: validate the cluster, switch the `kubectl` context, load
    the AWS configuration, snapshot the group's instances, and then either only show them (dry
    run) or freeze the group's maximum size, taint every node and drain every node. Each
    external call is answered by the environment; the calls made are returned as a trace. */
module TaintAndDrain {
  import opened Outcomes
  import opened Config
  import opened Instance
  import opened Autoscaling

  /** An external call the command makes, in the order made. */
  datatype Event =
    | UseContext(cluster: string)
    | LoadAwsConfig(region: string, profile: string)
    | DescribeAutoScalingGroups(asgName: string)
    | DescribeInstances(instanceIds: seq<string>)
    | UpdateAutoScalingGroup(request: UpdateRequest)
    | NodeCommand(action: NodeAction, node: string) // runs `kubectl` with NodeArgs(action, node)

  /** Calls that change the group or the nodes. */
  predicate IsWrite(e: Event)
  {
    e.UpdateAutoScalingGroup? || e.NodeCommand?
  }

  predicate NoWrites(events: seq<Event>)
  {
    forall i | 0 <= i < |events| :: !IsWrite(events[i])
  }

  /** The answers of the outside world: whether `kubectl config use-context` and loading the AWS
      configuration succeed, the two describe replies, the update reply, and whether the
      `kubectl` command of an action on a node succeeds. */
  datatype Environment = Environment(
    useContext: bool,
    awsConfig: bool,
    asgReply: Result<seq<GroupDescription>>,
    ec2Reply: Result<seq<Reservation>>,
    updateReply: Result<UpdateOutput>,
    succeeds: (NodeAction, string) -> bool)

  /** The replies hold what the code indexes without checking: a first group, and a first
      instance in every reservation. */
  predicate WellFormed(env: Environment)
  {
    && (env.asgReply.Success? ==> |env.asgReply.value| >= 1)
    && (env.ec2Reply.Success? ==> Readable(env.ec2Reply.value))
  }

  /** The calls made and whether the process ended early through a fatal log. */
  datatype Execution = Execution(events: seq<Event>, exited: bool)

  /** Cluster check, context switch and AWS configuration. An unknown cluster ends the process
      before any call; a failing context switch or configuration load ends it too. */
  function Preflight(cfg: Configuration, cluster: string, env: Environment): (r: Execution)
    ensures !IsClusterNameValid(cfg, cluster) ==> r == Execution([], true)
    ensures IsClusterNameValid(cfg, cluster) ==> |r.events| >= 1 && r.events[0] == UseContext(cluster)
    ensures !r.exited <==> IsClusterNameValid(cfg, cluster) && env.useContext && env.awsConfig
    ensures !r.exited ==> r.events == [UseContext(cluster), LoadAwsConfig(GetAwsAccountAndRegionForCluster(cfg, cluster).1,
                                                                       GetAwsAccountAndRegionForCluster(cfg, cluster).0)]
    ensures NoWrites(r.events)
  {
    if !IsClusterNameValid(cfg, cluster) then Execution([], true)
    else
      var (account, region, err) := GetAwsAccountAndRegionForCluster(cfg, cluster);
      var switched := if err == Pass then [UseContext(cluster)] else [];
      if err == Pass && !env.useContext then Execution(switched, true)
      else Execution(switched + [LoadAwsConfig(region, account)], !env.awsConfig)
  }

  /** The describe calls a snapshot build made. */
  function DescribeEvents(asgName: string, s: Snapshot): (es: seq<Event>)
    ensures NoWrites(es)
  {
    [DescribeAutoScalingGroups(asgName)] + (if s.describedIds.Some? then [DescribeInstances(s.describedIds.value)] else [])
  }

  /** The node commands of one loop, as trace events. */
  function Commands(action: NodeAction, issued: seq<string>): (es: seq<Event>)
    ensures |es| == |issued|
    ensures forall i | 0 <= i < |issued| :: es[i] == NodeCommand(action, issued[i])
  {
    seq(|issued|, i requires 0 <= i < |issued| => NodeCommand(action, issued[i]))
  }

  predicate IsNodeCommand(e: Event, action: NodeAction)
  {
    e.NodeCommand? && e.action == action
  }

  /** Every taint command comes before every drain command. */
  predicate TaintBeforeDrain(events: seq<Event>)
  {
    forall i, j | 0 <= i < |events| && 0 <= j < |events|
                  && IsNodeCommand(events[i], Drain) && IsNodeCommand(events[j], Taint)
                  :: j < i
  }

  /** Every node command addresses a node of the snapshot `a`. */
  predicate CommandsOnSnapshot(events: seq<Event>, a: AwsInstances)
  {
    forall i | 0 <= i < |events| && events[i].NodeCommand? ::
      exists k | 0 <= k < |a| :: events[i].node == a[k].privateDns
  }

  /** The freeze request for a snapshot: the group's maximum size set to the snapshot's count,
      as a 32-bit value. */
  function FreezeRequest(asgName: string, a: AwsInstances): (req: UpdateRequest)
    ensures req.autoScalingGroupName == asgName
    ensures Count(a) < TwoTo31 ==> req.maxSize == Count(a)
  {
    UpdateRequest(asgName, ToInt32(Count(a)))
  }

  /** Whether the command of a node-command event succeeds. */
  predicate Succeeds(succeeds: (NodeAction, string) -> bool, e: Event)
  {
    e.NodeCommand? && succeeds(e.action, e.node)
  }

  /** `Succeeds` as the step of a loop that stops at the first failure. */
  function StepOf(succeeds: (NodeAction, string) -> bool): Event -> bool
  {
    e => Succeeds(succeeds, e)
  }

  /** The trace when every command succeeds: a taint for each node of the snapshot, in order,
      then a drain for each node, in order. */
  function FullTrace(a: AwsInstances): seq<Event>
  {
    Commands(Taint, Nodes(a)) + Commands(Drain, Nodes(a))
  }

  /** Taint every node, then drain every node. A failing taint ends the process before any
      drain; the error a loop could return is never seen, because a failure has already ended
      the process. Together the two loops run a prefix of the full trace that stops at the
      first failing command. */
  function TaintThenDrain(a: AwsInstances, succeeds: (NodeAction, string) -> bool): (r: Execution)
    ensures Loop(r.events, r.exited) == RunUntilFailure(FullTrace(a), StepOf(succeeds))
  {
    var step := StepOf(succeeds);
    var taint := RunUntilFailure(Commands(Taint, Nodes(a)), step);
    RunConcat(Commands(Taint, Nodes(a)), Commands(Drain, Nodes(a)), step);
    if taint.exited then Execution(taint.issued, true)
    else
      var drain := RunUntilFailure(Commands(Drain, Nodes(a)), step);
      Execution(taint.issued + drain.issued, drain.exited)
  }

  /** Spelled out: the trace is a prefix of the full trace in which every command but the last
      succeeded; a completed run issued the whole full trace, and an ended one stopped at the
      command that failed. */
  lemma TaintThenDrainStopsAtFirstFailure(a: AwsInstances, succeeds: (NodeAction, string) -> bool)
    ensures var r := TaintThenDrain(a, succeeds);
            && r.events <= FullTrace(a)
            && (forall i | 0 <= i < |r.events| - 1 :: Succeeds(succeeds, r.events[i]))
            && (!r.exited ==> r.events == FullTrace(a))
            && (r.exited ==> r.events != [] && !Succeeds(succeeds, r.events[|r.events| - 1]))
  {
  }

  /** The i-th event of the full trace: the taint of the i-th node, or, past the last node, the
      drain of the node `|a|` places back. */
  lemma FullTraceAt(a: AwsInstances, i: nat)
    requires i < 2 * |a|
    ensures |FullTrace(a)| == 2 * |a|
    ensures FullTrace(a)[i] == if i < |a| then NodeCommand(Taint, a[i].privateDns)
                               else NodeCommand(Drain, a[i - |a|].privateDns)
  {
  }

  /** The loops complete iff every node is tainted successfully and drained successfully. */
  lemma CompletesIffEveryCommandSucceeds(a: AwsInstances, succeeds: (NodeAction, string) -> bool)
    ensures !TaintThenDrain(a, succeeds).exited <==>
              && (forall k | 0 <= k < |a| :: succeeds(Taint, a[k].privateDns))
              && (forall k | 0 <= k < |a| :: succeeds(Drain, a[k].privateDns))
  {
    var full := FullTrace(a);
    assert |full| == 2 * |a|;
    if forall i | 0 <= i < |full| :: Succeeds(succeeds, full[i]) {
      forall k | 0 <= k < |a| ensures succeeds(Taint, a[k].privateDns) && succeeds(Drain, a[k].privateDns) {
        FullTraceAt(a, k);
        FullTraceAt(a, k + |a|);
      }
    }
    if (forall k | 0 <= k < |a| :: succeeds(Taint, a[k].privateDns))
       && (forall k | 0 <= k < |a| :: succeeds(Drain, a[k].privateDns)) {
      forall i | 0 <= i < |full| ensures Succeeds(succeeds, full[i]) {
        FullTraceAt(a, i);
      }
    }
  }

  /** A drain command appears only once every node of `a` has been tainted successfully. */
  ghost predicate DrainAfterAllTaints(events: seq<Event>, a: AwsInstances, succeeds: (NodeAction, string) -> bool)
  {
    (exists i | 0 <= i < |events| :: IsNodeCommand(events[i], Drain))
      ==> forall k | 0 <= k < |a| :: succeeds(Taint, a[k].privateDns)
  }

  /** The shape of the full trace: the taint of each node in order, then the drain of each node
      in order. */
  ghost predicate ShapedAsFullTrace(events: seq<Event>, a: AwsInstances)
  {
    && |events| <= 2 * |a|
    && forall i | 0 <= i < |events| :: events[i] == FullTraceEvent(a, i)
  }

  /** The i-th event of the full trace. */
  function FullTraceEvent(a: AwsInstances, i: nat): Event
    requires i < 2 * |a|
  {
    if i < |a| then NodeCommand(Taint, a[i].privateDns) else NodeCommand(Drain, a[i - |a|].privateDns)
  }

  lemma PrefixShape(events: seq<Event>, a: AwsInstances)
    requires events <= FullTrace(a)
    ensures ShapedAsFullTrace(events, a)
  {
    assert |FullTrace(a)| == 2 * |a|;
    forall i | 0 <= i < |events| ensures events[i] == FullTraceEvent(a, i) {
      FullTraceAt(a, i);
    }
  }

  /** A trace shaped as a prefix of the full trace holds only node commands, has every taint
      before every drain and addresses only nodes of the snapshot. */
  lemma ShapedOrder(events: seq<Event>, a: AwsInstances)
    requires ShapedAsFullTrace(events, a)
    ensures forall i | 0 <= i < |events| :: events[i].NodeCommand?
    ensures TaintBeforeDrain(events)
    ensures CommandsOnSnapshot(events, a)
  {
    forall i | 0 <= i < |events| && events[i].NodeCommand?
      ensures exists k | 0 <= k < |a| :: events[i].node == a[k].privateDns
    {
      assert events[i] == FullTraceEvent(a, i);
      var k := if i < |a| then i else i - |a|;
      assert events[i].node == a[k].privateDns;
    }
  }

  /** In such a trace where every command but the last succeeded, a drain appears only after
      every node was tainted successfully. */
  lemma ShapedDrainAfterTaints(events: seq<Event>, a: AwsInstances, succeeds: (NodeAction, string) -> bool)
    requires ShapedAsFullTrace(events, a)
    requires forall i | 0 <= i < |events| - 1 :: Succeeds(succeeds, events[i])
    ensures DrainAfterAllTaints(events, a, succeeds)
  {
    if exists i | 0 <= i < |events| :: IsNodeCommand(events[i], Drain) {
      var i :| 0 <= i < |events| && IsNodeCommand(events[i], Drain);
      assert events[i] == FullTraceEvent(a, i);
      forall k | 0 <= k < |a| ensures succeeds(Taint, a[k].privateDns) {
        assert events[k] == FullTraceEvent(a, k);
        assert Succeeds(succeeds, events[k]);
      }
    }
  }

  /** A prefix of the full trace whose commands all succeeded except possibly the last one holds
      only node commands, has every taint before every drain, addresses only nodes of the
      snapshot, and drains only after every node was tainted successfully. */
  lemma PrefixFacts(events: seq<Event>, a: AwsInstances, succeeds: (NodeAction, string) -> bool)
    requires events <= FullTrace(a)
    requires forall i | 0 <= i < |events| - 1 :: Succeeds(succeeds, events[i])
    ensures forall i | 0 <= i < |events| :: events[i].NodeCommand?
    ensures TaintBeforeDrain(events)
    ensures CommandsOnSnapshot(events, a)
    ensures DrainAfterAllTaints(events, a, succeeds)
  {
    PrefixShape(events, a);
    ShapedOrder(events, a);
    ShapedDrainAfterTaints(events, a, succeeds);
  }

  /** The commands of a prefix of the nodes are the prefix of the commands. */
  lemma CommandsPrefix(action: NodeAction, nodes: seq<string>, n: nat)
    requires n <= |nodes|
    ensures Commands(action, nodes[..n]) == Commands(action, nodes)[..n]
  {
  }

  /** The `kubectl` argument vector of each event of a trace, in order; an event that is not a
      node command runs no `kubectl` command and has none. */
  function Argvs(events: seq<Event>): (argvs: seq<seq<string>>)
    ensures |argvs| == |events|
    ensures forall i | 0 <= i < |events| && events[i].NodeCommand? ::
              argvs[i] == NodeArgs(events[i].action, events[i].node)
  {
    seq(|events|, i requires 0 <= i < |events| =>
      if events[i].NodeCommand? then NodeArgs(events[i].action, events[i].node) else [])
  }

  /** The node commands of the trace are exactly the command lines the taint loop runs, followed,
      when no taint failed, by those the drain loop runs. */
  lemma TraceRunsTheLoops(a: AwsInstances, succeeds: (NodeAction, string) -> bool)
    ensures var taint := TaintNodes(a, succeeds);
            Argvs(TaintThenDrain(a, succeeds).events) == taint.issued + (if taint.exited then [] else DrainNodes(a, succeeds).issued)
  {
    TaintLoopAgrees(Taint, a, succeeds);
    TaintLoopAgrees(Drain, a, succeeds);
    var step := StepOf(succeeds);
    var t := RunUntilFailure(Commands(Taint, Nodes(a)), step);
    var d := RunUntilFailure(Commands(Drain, Nodes(a)), step);
    TaintThenDrainLoops(a, succeeds);
    if !t.exited {
      ArgvsConcat(t.issued, d.issued);
    }
  }

  /** The process ends early exactly when the taint loop or the drain loop ended it. */
  lemma TraceExitsWithTheLoops(a: AwsInstances, succeeds: (NodeAction, string) -> bool)
    ensures TaintThenDrain(a, succeeds).exited == (TaintNodes(a, succeeds).exited || DrainNodes(a, succeeds).exited)
  {
    TaintLoopAgrees(Taint, a, succeeds);
    TaintLoopAgrees(Drain, a, succeeds);
    TaintThenDrainLoops(a, succeeds);
  }

  /** The trace is the taint loop's, followed, when no taint failed, by the drain loop's. */
  lemma TaintThenDrainLoops(a: AwsInstances, succeeds: (NodeAction, string) -> bool)
    ensures var t := RunUntilFailure(Commands(Taint, Nodes(a)), StepOf(succeeds));
            var d := RunUntilFailure(Commands(Drain, Nodes(a)), StepOf(succeeds));
            TaintThenDrain(a, succeeds) == if t.exited then Execution(t.issued, true) else Execution(t.issued + d.issued, d.exited)
  {
  }

  /** The events one loop of the trace runs are the commands of the nodes `VisitNodes` reaches,
      so their argument vectors are those `TaintNodes` or `DrainNodes` runs. */
  lemma TaintLoopAgrees(action: NodeAction, a: AwsInstances, succeeds: (NodeAction, string) -> bool)
    ensures var run := RunUntilFailure(Commands(action, Nodes(a)), StepOf(succeeds));
            && run.exited == VisitNodes(action, a, succeeds).exited
            && Argvs(run.issued) == NodeLoop(action, a, succeeds).issued
  {
    var nodes := Nodes(a);
    var run := RunUntilFailure(Commands(action, nodes), StepOf(succeeds));
    LoopMatchesVisit(action, a, succeeds);
    CommandsRunNodeArgs(action, nodes[..|run.issued|], a);
  }

  /** The loop over the commands stops where the loop over the nodes stops. */
  lemma LoopMatchesVisit(action: NodeAction, a: AwsInstances, succeeds: (NodeAction, string) -> bool)
    ensures var run := RunUntilFailure(Commands(action, Nodes(a)), StepOf(succeeds));
            var visit := VisitNodes(action, a, succeeds);
            && run.exited == visit.exited
            && |run.issued| == |visit.issued|
            && run.issued == Commands(action, Nodes(a)[..|run.issued|])
  {
    var nodes := Nodes(a);
    var commands := Commands(action, nodes);
    var step := StepOf(succeeds);
    var visitStep := node => succeeds(action, node);
    assert forall i | 0 <= i < |commands| :: step(commands[i]) == visitStep(nodes[i]);
    RunsAgree(commands, step, nodes, visitStep);
    CommandLoopIssuesPrefix(action, nodes, step);
  }

  /** A loop over the commands of some nodes issues the commands of a prefix of the nodes. */
  lemma CommandLoopIssuesPrefix(action: NodeAction, nodes: seq<string>, step: Event -> bool)
    ensures var run := RunUntilFailure(Commands(action, nodes), step);
            run.issued == Commands(action, nodes[..|run.issued|])
  {
    var run := RunUntilFailure(Commands(action, nodes), step);
    CommandsPrefix(action, nodes, |run.issued|);
  }

  /** The commands of one loop over a prefix of the snapshot run that prefix's argument vectors. */
  lemma CommandsRunNodeArgs(action: NodeAction, nodes: seq<string>, a: AwsInstances)
    requires |nodes| <= |a| && forall i | 0 <= i < |nodes| :: nodes[i] == a[i].privateDns
    ensures Argvs(Commands(action, nodes)) == NodeArgsList(a[..|nodes|], action)
  {
    var argvs := Argvs(Commands(action, nodes));
    var expected := NodeArgsList(a[..|nodes|], action);
    forall i | 0 <= i < |nodes| ensures argvs[i] == expected[i] {
      assert a[..|nodes|][i] == a[i];
    }
  }

  lemma ArgvsConcat(xs: seq<Event>, ys: seq<Event>)
    ensures Argvs(xs + ys) == Argvs(xs) + Argvs(ys)
  {
    var zs := xs + ys;
    forall i | 0 <= i < |zs| ensures Argvs(zs)[i] == (Argvs(xs) + Argvs(ys))[i] {
      if i < |xs| { assert zs[i] == xs[i]; } else { assert zs[i] == ys[i - |xs|]; }
    }
  }

  /** The non-dry part: freeze the group through the updater, then taint and drain. A failed
      freeze ends the process before any node is touched. */
  function Enforce(asgName: string, a: AwsInstances, env: Environment): (r: Execution)
    ensures |r.events| >= 1 && r.events[0] == UpdateAutoScalingGroup(FreezeRequest(asgName, a))
    ensures env.updateReply.Failure? ==> r == Execution([r.events[0]], true)
    ensures env.updateReply.Success? ==> r == Execution([r.events[0]] + TaintThenDrain(a, env.succeeds).events,
                                                          TaintThenDrain(a, env.succeeds).exited)
  {
    var asg := AutoScalingGroup(a, Count(a), 0, 0, asgName);
    var call := UpdateAutoScalingGroupCount(asg, env.updateReply);
    var update := Update(asg, g => UpdateAutoScalingGroupCount(g, env.updateReply));
    var freeze := [UpdateAutoScalingGroup(call.request)];
    if update.err.Fail? then Execution(freeze, true)
    else
      var loops := TaintThenDrain(a, env.succeeds);
      Execution(freeze + loops.events, loops.exited)
  }

  /** The snapshot the command takes of the group. */
  function SnapshotOf(asgName: string, env: Environment, strict: bool): Snapshot
    requires WellFormed(env)
  {
    if strict then GetInstancesForASGStrict([], asgName, env.asgReply, env.ec2Reply)
    else GetInstancesForASG([], asgName, env.asgReply, env.ec2Reply)
  }

  /** After the snapshot: stop if the snapshot ended the process, only show it in a dry run,
      and otherwise freeze, taint and drain. */
  function Proceed(lookups: seq<Event>, asgName: string, snap: Snapshot, dryRun: bool, env: Environment): (r: Execution)
    requires NoWrites(lookups)
    ensures |r.events| >= |lookups| && r.events[..|lookups|] == lookups
    ensures snap.exited || dryRun ==> r == Execution(lookups, snap.exited)
    ensures !snap.exited && !dryRun ==> |r.events| > |lookups| && r.events[|lookups|] == UpdateAutoScalingGroup(FreezeRequest(asgName, snap.instances))
    ensures forall i | 0 <= i < |r.events| && r.events[i].UpdateAutoScalingGroup? ::
              r.events[i].request == FreezeRequest(asgName, snap.instances)
    ensures env.updateReply.Failure? ==> forall i | 0 <= i < |r.events| :: !r.events[i].NodeCommand?
    ensures TaintBeforeDrain(r.events)
    ensures CommandsOnSnapshot(r.events, snap.instances)
    ensures DrainAfterAllTaints(r.events, snap.instances, env.succeeds)
    ensures !snap.exited && !dryRun ==>
              r == Execution(lookups + Enforce(asgName, snap.instances, env).events, Enforce(asgName, snap.instances, env).exited)
  {
    if snap.exited || dryRun then
      NoCommandsNoOrder(lookups, snap.instances, env.succeeds);
      Execution(lookups, snap.exited)
    else
      AfterLookups(lookups, asgName, snap.instances, env)
  }

  /** The lookups followed by the freeze, taint and drain of `Enforce`. */
  function AfterLookups(lookups: seq<Event>, asgName: string, a: AwsInstances, env: Environment): (r: Execution)
    requires NoWrites(lookups)
    ensures r == Execution(lookups + Enforce(asgName, a, env).events, Enforce(asgName, a, env).exited)
    ensures |r.events| > |lookups| && r.events[..|lookups|] == lookups
    ensures r.events[|lookups|] == UpdateAutoScalingGroup(FreezeRequest(asgName, a))
    ensures forall i | 0 <= i < |r.events| && r.events[i].UpdateAutoScalingGroup? ::
              r.events[i].request == FreezeRequest(asgName, a)
    ensures env.updateReply.Failure? ==> forall i | 0 <= i < |r.events| :: !r.events[i].NodeCommand?
    ensures TaintBeforeDrain(r.events)
    ensures CommandsOnSnapshot(r.events, a)
    ensures DrainAfterAllTaints(r.events, a, env.succeeds)
  {
    var enforced := Enforce(asgName, a, env);
    if env.updateReply.Failure? then
      NoCommandsNoOrder(lookups + enforced.events, a, env.succeeds);
      Execution(lookups + enforced.events, enforced.exited)
    else
      var loops := TaintThenDrain(a, env.succeeds);
      var freeze := UpdateAutoScalingGroup(FreezeRequest(asgName, a));
      PrefixFacts(loops.events, a, env.succeeds);
      Assemble(lookups, freeze, loops.events, a, env.succeeds);
      assert lookups + enforced.events == lookups + [freeze] + loops.events;
      Execution(lookups + [freeze] + loops.events, loops.exited)
  }

  /** A trace without node commands trivially keeps the ordering and addressing facts. */
  lemma NoCommandsNoOrder(events: seq<Event>, a: AwsInstances, succeeds: (NodeAction, string) -> bool)
    requires forall i | 0 <= i < |events| :: !events[i].NodeCommand?
    ensures TaintBeforeDrain(events) && CommandsOnSnapshot(events, a) && DrainAfterAllTaints(events, a, succeeds)
  {
  }

  /** Lookups, then the freeze, then the node loops: the freeze is the only update, and the
      loops' ordering and addressing facts carry over to the whole trace. */
  lemma Assemble(lookups: seq<Event>, freeze: Event, loops: seq<Event>, a: AwsInstances, succeeds: (NodeAction, string) -> bool)
    requires NoWrites(lookups) && !freeze.NodeCommand?
    requires forall i | 0 <= i < |loops| :: loops[i].NodeCommand?
    requires TaintBeforeDrain(loops) && CommandsOnSnapshot(loops, a) && DrainAfterAllTaints(loops, a, succeeds)
    ensures var events := lookups + [freeze] + loops;
            && TaintBeforeDrain(events) && CommandsOnSnapshot(events, a) && DrainAfterAllTaints(events, a, succeeds)
            && forall i | 0 <= i < |events| && events[i].UpdateAutoScalingGroup? :: events[i] == freeze
  {
    var prefix := lookups + [freeze];
    assert forall i | 0 <= i < |prefix| :: !prefix[i].NodeCommand?;
    PrefixKeepsCommands(prefix, loops, a);
    PrefixKeepsOrder(prefix, loops, succeeds, a);
    OnlyUpdateIsFreeze(lookups, freeze, loops);
  }

  lemma PrefixKeepsCommands(prefix: seq<Event>, loops: seq<Event>, a: AwsInstances)
    requires forall i | 0 <= i < |prefix| :: !prefix[i].NodeCommand?
    requires CommandsOnSnapshot(loops, a)
    ensures CommandsOnSnapshot(prefix + loops, a)
  {
    var events := prefix + loops;
    forall i | 0 <= i < |events| && events[i].NodeCommand?
      ensures exists k | 0 <= k < |a| :: events[i].node == a[k].privateDns
    {
      assert events[i] == loops[i - |prefix|];
    }
  }

  lemma PrefixKeepsOrder(prefix: seq<Event>, loops: seq<Event>, succeeds: (NodeAction, string) -> bool, a: AwsInstances)
    requires forall i | 0 <= i < |prefix| :: !prefix[i].NodeCommand?
    requires TaintBeforeDrain(loops) && DrainAfterAllTaints(loops, a, succeeds)
    ensures TaintBeforeDrain(prefix + loops) && DrainAfterAllTaints(prefix + loops, a, succeeds)
  {
    var events := prefix + loops;
    forall i, j | 0 <= i < |events| && 0 <= j < |events|
                  && IsNodeCommand(events[i], Drain) && IsNodeCommand(events[j], Taint)
      ensures j < i
    {
      assert events[i] == loops[i - |prefix|] && events[j] == loops[j - |prefix|];
    }
    if exists i | 0 <= i < |events| :: IsNodeCommand(events[i], Drain) {
      var i :| 0 <= i < |events| && IsNodeCommand(events[i], Drain);
      assert loops[i - |prefix|] == events[i];
    }
  }

  /** Only the freeze's own position holds an update. */
  lemma OnlyUpdateIsFreeze(lookups: seq<Event>, freeze: Event, loops: seq<Event>)
    requires NoWrites(lookups)
    requires forall i | 0 <= i < |loops| :: loops[i].NodeCommand?
    ensures var events := lookups + [freeze] + loops;
            && events[|lookups|] == freeze
            && forall i | 0 <= i < |events| && i != |lookups| :: !events[i].UpdateAutoScalingGroup?
  {
    var events := lookups + [freeze] + loops;
    forall i | 0 <= i < |events| && i != |lookups|
      ensures !events[i].UpdateAutoScalingGroup?
    {
      if i < |lookups| {
        assert events[i] == lookups[i];
      } else {
        assert events[i] == loops[i - |lookups| - 1];
      }
    }
  }

  /** The whole command. With `strict` false it is the code as written, where a failed describe
      call leaves the snapshot empty and the command carries on; with `strict` true such a
      failure ends the process. */
  function Execute(cfg: Configuration, cluster: string, asgName: string, dryRun: bool, env: Environment, strict: bool)
    : (r: Execution)
    requires WellFormed(env)
    ensures !IsClusterNameValid(cfg, cluster) ==> r == Execution([], true)
    ensures Preflight(cfg, cluster, env).exited ==> r == Preflight(cfg, cluster, env)
    ensures dryRun ==> NoWrites(r.events)
    ensures forall i | 0 <= i < |r.events| && r.events[i].UpdateAutoScalingGroup? ::
              r.events[i].request == FreezeRequest(asgName, SnapshotOf(asgName, env, strict).instances)
    ensures env.updateReply.Failure? ==> forall i | 0 <= i < |r.events| :: !r.events[i].NodeCommand?
    ensures TaintBeforeDrain(r.events)
    ensures CommandsOnSnapshot(r.events, SnapshotOf(asgName, env, strict).instances)
    ensures DrainAfterAllTaints(r.events, SnapshotOf(asgName, env, strict).instances, env.succeeds)
    ensures IsClusterNameValid(cfg, cluster) && env.useContext && env.awsConfig ==>
              var snap := SnapshotOf(asgName, env, strict);
              r == Proceed(Preflight(cfg, cluster, env).events + DescribeEvents(asgName, snap), asgName, snap, dryRun, env)
  {
    var pre := Preflight(cfg, cluster, env);
    var snap := SnapshotOf(asgName, env, strict);
    if pre.exited then
      NoCommandsNoOrder(pre.events, snap.instances, env.succeeds);
      pre
    else
      Proceed(pre.events + DescribeEvents(asgName, snap), asgName, snap, dryRun, env)
  }

  /** Outside a dry run, once the preflight, the snapshot and the freeze succeed and every node
      command succeeds, the command freezes the group to the snapshot's count, taints every node
      in snapshot order, then drains every node in snapshot order, and completes. */
  lemma {:induction false} EveryNodeTaintedThenDrained(cfg: Configuration, cluster: string, asgName: string,
                                                       env: Environment, strict: bool)
    requires WellFormed(env) && IsClusterNameValid(cfg, cluster) && env.useContext && env.awsConfig
    requires !SnapshotOf(asgName, env, strict).exited && env.updateReply.Success?
    requires forall k | 0 <= k < |SnapshotOf(asgName, env, strict).instances| ::
               var node := SnapshotOf(asgName, env, strict).instances[k].privateDns;
               env.succeeds(Taint, node) && env.succeeds(Drain, node)
    ensures var snap := SnapshotOf(asgName, env, strict);
            var r := Execute(cfg, cluster, asgName, false, env, strict);
            && !r.exited
            && r.events == Preflight(cfg, cluster, env).events + DescribeEvents(asgName, snap)
                           + [UpdateAutoScalingGroup(FreezeRequest(asgName, snap.instances))] + FullTrace(snap.instances)
  {
    var snap := SnapshotOf(asgName, env, strict);
    EnforceCompletes(asgName, snap.instances, env);
  }

  /** An accepted freeze followed by loops whose every command succeeds completes, with the full
      trace after the freeze. */
  lemma EnforceCompletes(asgName: string, a: AwsInstances, env: Environment)
    requires env.updateReply.Success?
    requires forall k | 0 <= k < |a| :: env.succeeds(Taint, a[k].privateDns) && env.succeeds(Drain, a[k].privateDns)
    ensures Enforce(asgName, a, env) == Execution([UpdateAutoScalingGroup(FreezeRequest(asgName, a))] + FullTrace(a), false)
  {
    CompletesIffEveryCommandSucceeds(a, env.succeeds);
  }

  /** `taint-and-drain-asg` as written. */
  function Run(cfg: Configuration, cluster: string, asgName: string, dryRun: bool, env: Environment): (r: Execution)
    requires WellFormed(env)
  {
    Execute(cfg, cluster, asgName, dryRun, env, false)
  }

  /** The `--dry-run` flag is true unless passed otherwise. */
  const DefaultDryRun: bool := true

  /** Without the flag the command only reads: no group update and no node command. */
  lemma DefaultRunWritesNothing(cfg: Configuration, cluster: string, asgName: string, env: Environment)
    requires WellFormed(env)
    ensures NoWrites(Run(cfg, cluster, asgName, DefaultDryRun, env).events)
  {
  }

  /** `taint-and-drain-asg` with a failed describe call ending the process. */
  function RunStrict(cfg: Configuration, cluster: string, asgName: string, dryRun: bool, env: Environment): (r: Execution)
    requires WellFormed(env)
  {
    Execute(cfg, cluster, asgName, dryRun, env, true)
  }

  /** As written, a failed describe call of the group leaves the snapshot empty, and the
      command goes on to set the group's maximum size to zero. */
  lemma DescribeFailureFreezesToZero(cfg: Configuration, cluster: string, asgName: string, env: Environment)
    requires WellFormed(env) && IsClusterNameValid(cfg, cluster) && env.useContext && env.awsConfig
    requires env.asgReply.Failure? || env.ec2Reply.Failure?
    ensures UpdateAutoScalingGroup(UpdateRequest(asgName, 0)) in Run(cfg, cluster, asgName, false, env).events
  {
    var pre := Preflight(cfg, cluster, env);
    var snap := SnapshotOf(asgName, env, false);
    assert snap.instances == [] && !snap.exited;
    var r := Proceed(pre.events + DescribeEvents(asgName, snap), asgName, snap, false, env);
    assert r.events[|pre.events + DescribeEvents(asgName, snap)|] == UpdateAutoScalingGroup(UpdateRequest(asgName, 0));
  }

  /** With a failed describe call ending the process, nothing is written: no update of the
      group and no node command. */
  lemma StrictDescribeFailureWritesNothing(cfg: Configuration, cluster: string, asgName: string, dryRun: bool,
                                           env: Environment)
    requires WellFormed(env)
    requires env.asgReply.Failure? || env.ec2Reply.Failure?
    ensures RunStrict(cfg, cluster, asgName, dryRun, env).exited
    ensures NoWrites(RunStrict(cfg, cluster, asgName, dryRun, env).events)
  {
    var pre := Preflight(cfg, cluster, env);
    var snap := SnapshotOf(asgName, env, true);
    assert snap.exited;
  }

  /** When both describe calls succeed, the strict command behaves exactly as the one as written. */
  lemma StrictAgreesWhenDescribed(cfg: Configuration, cluster: string, asgName: string, dryRun: bool, env: Environment)
    requires WellFormed(env) && env.asgReply.Success? && env.ec2Reply.Success?
    ensures RunStrict(cfg, cluster, asgName, dryRun, env) == Run(cfg, cluster, asgName, dryRun, env)
  {
    assert SnapshotOf(asgName, env, true) == SnapshotOf(asgName, env, false);
  }
}
