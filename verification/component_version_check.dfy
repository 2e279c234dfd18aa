/** `component version check`: for each of the four components, look up its workload, read the
    image of the workload's first container, take the tag and compare it with the configured
    version. The checks only read; the comparison is reported, not acted upon. */
module ComponentVersionCheck {
  import opened Outcomes
  import opened Config
  import opened Cluster

  /** The result of checking one component: the error, the workload read (if a read was made),
      and whether the running tag equals the configured version (if the comparison was made). */
  datatype Check = Check(err: Outcome, request: Option<WorkloadKey>, inSync: Option<bool>)

  /** The cluster's answer to a read holds what the code indexes without checking: a first
      container whose image has a colon. */
  predicate Parsable(reply: GetReply)
  {
    reply.Found? ==> |reply.containers| > 0 && ImageSeparator in reply.containers[0].image
  }

  /** `checkComponentVersion`: look up the workload (an error is returned unchanged and nothing is
      read), read its image (an error is returned unchanged), take the tag and compare it with
      the configured version. Both outcomes of the comparison return no error. */
  function CheckComponentVersion(componentName: string, clusterName: string, cfg: Configuration,
                                 lookup: WorkloadLookup, reply: GetReply): (r: Check)
    requires Parsable(reply)
    ensures lookup(clusterName, componentName).1.Fail? ==> r == Check(lookup(clusterName, componentName).1, None, None)
    ensures lookup(clusterName, componentName).1 == Pass ==>
              var ref := lookup(clusterName, componentName).0;
              var read := GetContainerImageForK8sObject(ref.deploymentName, ref.objectType, ref.namespace, reply);
              && r.request == read.request
              && r.err == read.err
    ensures r.err == Pass <==> && lookup(clusterName, componentName).1 == Pass
                               && ParseKind(lookup(clusterName, componentName).0.objectType).Some?
                               && reply.Found?
    ensures r.err == Pass ==>
              r.inSync == Some(ConfiguredVersion(cfg, componentName)
                               == Some(BeforeColon(AfterColon(reply.containers[0].image))))
    ensures r.err.Fail? ==> r.inSync == None
  {
    var (ref, err) := lookup(clusterName, componentName);
    if err.Fail? then Check(err, None, None)
    else
      var read := GetContainerImageForK8sObject(ref.deploymentName, ref.objectType, ref.namespace, reply);
      if read.err.Fail? then Check(read.err, read.request, None)
      else
        var (tag, perr) := ParseComponentImage(read.image, "imageTag");
        if perr.Fail? then Check(perr, read.request, None)
        else Check(Pass, read.request, Some(ConfiguredVersion(cfg, componentName) == Some(tag)))
  }

  /** The order in which the command checks the components. */
  const CheckOrder: seq<Component> := [AwsNode, KubeProxy, CoreDns, ClusterAutoscaler]

  /** What the command did: whether it initialised the cluster client, the checks made in order,
      and whether it ended through a fatal log. */
  datatype CheckRun = CheckRun(clientInit: bool, checks: seq<Check>, exited: bool)

  /** The check of each component, in the order given. */
  function ChecksFor(components: seq<Component>, clusterName: string, cfg: Configuration,
                     lookup: WorkloadLookup, replies: Component -> GetReply): (checks: seq<Check>)
    requires forall c: Component :: Parsable(replies(c))
    ensures |checks| == |components|
    ensures forall i | 0 <= i < |components| ::
              checks[i] == CheckComponentVersion(ComponentName(components[i]), clusterName, cfg, lookup, replies(components[i]))
  {
    seq(|components|, i requires 0 <= i < |components| =>
      CheckComponentVersion(ComponentName(components[i]), clusterName, cfg, lookup, replies(components[i])))
  }

  /** Every check passed. */
  predicate AllPass(checks: seq<Check>)
  {
    forall i | 0 <= i < |checks| :: checks[i].err == Pass
  }

  /** Report the checks in order; the first error ends the process, so no later check is made. */
  function StopAtFirstError(checks: seq<Check>): (r: CheckRun)
    ensures r.checks <= checks
    ensures forall i | 0 <= i < |r.checks| - 1 :: r.checks[i].err == Pass
    ensures !r.exited <==> AllPass(checks)
    ensures !r.exited ==> r.checks == checks
    ensures r.exited ==> |r.checks| > 0 && r.checks[|r.checks| - 1].err.Fail?
  {
    var run := RunUntilFailure(checks, (c: Check) => c.err == Pass);
    CheckRun(true, run.issued, run.exited)
  }

  /** The `check` command: an unknown cluster ends the process before the client is initialised;
      a failing client initialisation ends it before any check; then the four components are
      checked in the fixed order, stopping at the first error. */
  function Run(cfg: Configuration, clusterName: string, clientOk: bool,
               lookup: WorkloadLookup, replies: Component -> GetReply): (r: CheckRun)
    requires forall c: Component :: Parsable(replies(c))
    ensures !IsClusterNameValid(cfg, clusterName) ==> r == CheckRun(false, [], true)
    ensures IsClusterNameValid(cfg, clusterName) ==> r.clientInit
    ensures !clientOk ==> r.checks == [] && r.exited
    ensures r.checks <= ChecksFor(CheckOrder, clusterName, cfg, lookup, replies)
    ensures forall i | 0 <= i < |r.checks| - 1 :: r.checks[i].err == Pass
    ensures !r.exited <==> && IsClusterNameValid(cfg, clusterName) && clientOk
                           && AllPass(ChecksFor(CheckOrder, clusterName, cfg, lookup, replies))
    ensures !r.exited ==> r.checks == ChecksFor(CheckOrder, clusterName, cfg, lookup, replies)
    ensures IsClusterNameValid(cfg, clusterName) && clientOk && r.exited ==>
              |r.checks| > 0 && r.checks[|r.checks| - 1].err.Fail?
  {
    if !IsClusterNameValid(cfg, clusterName) then CheckRun(false, [], true)
    else if !clientOk then CheckRun(true, [], true)
    else StopAtFirstError(ChecksFor(CheckOrder, clusterName, cfg, lookup, replies))
  }

  /** The fixed order covers every component: passing in that order is passing for each one. */
  lemma OrderCoversAll(clusterName: string, cfg: Configuration, lookup: WorkloadLookup, replies: Component -> GetReply)
    requires forall c: Component :: Parsable(replies(c))
    ensures AllPass(ChecksFor(CheckOrder, clusterName, cfg, lookup, replies)) <==>
            forall c: Component :: CheckComponentVersion(ComponentName(c), clusterName, cfg, lookup, replies(c)).err == Pass
  {
    var checks := ChecksFor(CheckOrder, clusterName, cfg, lookup, replies);
    if AllPass(checks) {
      forall c: Component
        ensures CheckComponentVersion(ComponentName(c), clusterName, cfg, lookup, replies(c)).err == Pass
      {
        var i := OrderIndex(c);
        assert checks[i].err == Pass;
      }
    }
  }

  /** The position of each component in the check order. */
  function OrderIndex(c: Component): (i: nat)
    ensures i < |CheckOrder| && CheckOrder[i] == c
  {
    match c
    case AwsNode => 0
    case KubeProxy => 1
    case CoreDns => 2
    case ClusterAutoscaler => 3
  }

  /** A check is read-only and its comparison never fails the command: on a good lookup and a
      good read the result is a success, in sync or not. */
  lemma MismatchIsNotAnError(componentName: string, clusterName: string, cfg: Configuration,
                             lookup: WorkloadLookup, containers: seq<Container>)
    requires lookup(clusterName, componentName).1 == Pass
    requires ParseKind(lookup(clusterName, componentName).0.objectType).Some?
    requires |containers| > 0 && ImageSeparator in containers[0].image
    ensures CheckComponentVersion(componentName, clusterName, cfg, lookup, Found(containers)).err == Pass
  {
  }

  /** An image `prefix:tag` is in sync exactly when the tag is the configured version. */
  lemma InSyncIffTagMatches(c: Component, clusterName: string, cfg: Configuration, lookup: WorkloadLookup,
                            prefix: string, tag: string, rest: seq<Container>)
    requires lookup(clusterName, ComponentName(c)).1 == Pass
    requires ParseKind(lookup(clusterName, ComponentName(c)).0.objectType).Some?
    requires ImageSeparator !in prefix && ImageSeparator !in tag
    ensures var image := prefix + [ImageSeparator] + tag;
            CheckComponentVersion(ComponentName(c), clusterName, cfg, lookup, Found([Container("", image)] + rest)).inSync
              == Some(tag == VersionOf(cfg.components, c))
  {
    var image := prefix + [ImageSeparator] + tag;
    ImageRoundTrip(prefix, tag);
    assert ParseComponentImage(image, "imageTag") == (tag, Pass);
  }
}
