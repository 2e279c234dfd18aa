/** `component version set`: check that the requested version is the configured one, switch the
    `kubectl` context to the cluster, look up the component's workload, read its current image
    and write `<current prefix>:<requested tag>` back. `kubectl` runs are oracle answers and the
    two `kubectl` invocations plus the context switch are returned as a trace. */
module ComponentVersionSet {
  import opened Outcomes
  import opened Config
  import opened Cluster

  /** The external effects of the command, in the order issued. `GetImage` reads the image of the
      object named after the component; `SetImage` writes an image to `target`. */
  datatype Event =
    | UseContext(cluster: string)
    | GetImage(objectType: string, objectName: string, namespace: string)
    | SetImage(target: string, containerName: string, image: string, namespace: string)

  /** The answers of the outside world: whether the context switch succeeds, the workload lookup,
      the output of the image read and whether the image write succeeds. */
  datatype Environment = Environment(useContext: bool, lookup: WorkloadLookup, getOutput: Result<string>, setOk: bool)

  /** The trace of a run and whether it ended through a fatal log. */
  datatype Execution = Execution(events: seq<Event>, exited: bool)

  /** `fmt.Sprintf("%s.apps/%s", ObjectType, DeploymentName)`: the object `kubectl set image` targets. */
  function SetTarget(ref: WorkloadRef): (target: string)
    ensures |target| == |ref.objectType| + |".apps/"| + |ref.deploymentName|
    ensures target[..|ref.objectType|] == ref.objectType
    ensures target[|ref.objectType|..|ref.objectType| + |".apps/"|] == ".apps/"
    ensures target[|target| - |ref.deploymentName|..] == ref.deploymentName
  {
    ref.objectType + ".apps/" + ref.deploymentName
  }

  /** The image written by `setComponentVersion` as written: the prefix `ParseComponentImage`
      returns for the current image (the text before its first colon), a colon and the tag. */
  function ComposeImage(current: string, tag: string): (image: string)
  {
    ParseComponentImage(current, "imagePrefix").0 + [ImageSeparator] + tag
  }

  /** For an image with a single colon the write keeps the repository and replaces only the tag. */
  lemma ComposeReplacesTag(repository: string, oldTag: string, tag: string)
    requires ImageSeparator !in repository && ImageSeparator !in oldTag && ImageSeparator !in tag
    ensures ComposeImage(repository + [ImageSeparator] + oldTag, tag) == repository + [ImageSeparator] + tag
    ensures ParseComponentImage(ComposeImage(repository + [ImageSeparator] + oldTag, tag), "imagePrefix") == (repository, Pass)
    ensures ParseComponentImage(ComposeImage(repository + [ImageSeparator] + oldTag, tag), "imageTag") == (tag, Pass)
  {
    ImageRoundTrip(repository, oldTag);
    ImageRoundTrip(repository, tag);
  }

  /** For an image from a registry with a port, `host:port/path:tag`, the write as written keeps
      only `host`: the port, the path and the old tag are all replaced by the new tag. */
  lemma ComposeDropsRegistryPath(host: string, portAndPath: string, oldTag: string, tag: string)
    requires ImageSeparator !in host && ImageSeparator !in portAndPath && ImageSeparator !in oldTag
    ensures ComposeImage(host + [ImageSeparator] + portAndPath + [ImageSeparator] + oldTag, tag)
            == host + [ImageSeparator] + tag
  {
    RegistryPortMisparse(host, portAndPath, oldTag);
  }

  /** The repository of an image: the text before its last colon (empty when there is none). */
  function Repository(s: string): (repository: string)
    ensures |repository| <= |s|
    decreases |s|
  {
    if s == [] then []
    else if s[|s| - 1] == ImageSeparator then s[..|s| - 1]
    else Repository(s[..|s| - 1])
  }

  /** The repository is whatever precedes a last colon, colons in it included. */
  lemma {:induction false} RepositoryBeforeLastColon(repository: string, tag: string)
    requires ImageSeparator !in tag
    ensures Repository(repository + [ImageSeparator] + tag) == repository
    decreases |tag|
  {
    var s := repository + [ImageSeparator] + tag;
    if tag == [] {
      assert s[..|s| - 1] == repository;
    } else {
      assert s[|s| - 1] == tag[|tag| - 1];
      assert s[..|s| - 1] == repository + [ImageSeparator] + tag[..|tag| - 1];
      RepositoryBeforeLastColon(repository, tag[..|tag| - 1]);
    }
  }

  /** The image the write evidently means to produce: the current repository, a colon and the tag. */
  function ComposeImageKeepingRepository(current: string, tag: string): (image: string)
  {
    Repository(current) + [ImageSeparator] + tag
  }

  /** Whatever the repository holds, a port included, the corrected write keeps it and changes
      only the tag; an image written once can be rewritten to another tag and back. */
  lemma KeepingRepositoryReplacesTag(repository: string, oldTag: string, tag: string)
    requires ImageSeparator !in oldTag && ImageSeparator !in tag
    ensures ComposeImageKeepingRepository(repository + [ImageSeparator] + oldTag, tag) == repository + [ImageSeparator] + tag
    ensures Repository(ComposeImageKeepingRepository(repository + [ImageSeparator] + oldTag, tag)) == repository
  {
    RepositoryBeforeLastColon(repository, oldTag);
    RepositoryBeforeLastColon(repository, tag);
  }

  /** With a single colon the corrected write and the write as written agree. */
  lemma CorrectionAgreesOnPlainImages(repository: string, oldTag: string, tag: string)
    requires ImageSeparator !in repository && ImageSeparator !in oldTag && ImageSeparator !in tag
    ensures ComposeImageKeepingRepository(repository + [ImageSeparator] + oldTag, tag)
            == ComposeImage(repository + [ImageSeparator] + oldTag, tag)
  {
    ComposeReplacesTag(repository, oldTag, tag);
    KeepingRepositoryReplacesTag(repository, oldTag, tag);
  }

  /** The image to write for the current image, as written or, with `keepRepository`, corrected. */
  function NewImage(current: string, tag: string, keepRepository: bool): string
  {
    if keepRepository then ComposeImageKeepingRepository(current, tag) else ComposeImage(current, tag)
  }

  /** `setComponentVersion`: read the current image of the object named after the component (a
      failed read ends the process before anything is written), then write the new image to the
      target; a failed write ends the process. */
  function SetComponentVersion(imageTag: string, componentName: string, ref: WorkloadRef,
                               env: Environment, keepRepository: bool): (r: Execution)
    ensures |r.events| >= 1 && r.events[0] == GetImage(ref.objectType, componentName, ref.namespace)
    ensures env.getOutput.Failure? ==> r.events == [r.events[0]] && r.exited
    ensures env.getOutput.Success? ==>
              && |r.events| == 2
              && r.events[1] == SetImage(SetTarget(ref), ref.containerName,
                                         NewImage(env.getOutput.value, imageTag, keepRepository), ref.namespace)
              && (r.exited <==> !env.setOk)
  {
    var get := GetImage(ref.objectType, componentName, ref.namespace);
    match env.getOutput
    case Failure(_) => Execution([get], true)
    case Success(output) =>
      var image := NewImage(output, imageTag, keepRepository);
      Execution([get, SetImage(SetTarget(ref), ref.containerName, image, ref.namespace)], !env.setOk)
  }

  /** The whole command. The requested version must be the configured one and the cluster must be
      known before the context is switched; a failed switch ends the process. A coredns lookup
      error ends the process, while for the other three components the error is only logged and
      the command carries on with whatever record the lookup returned. */
  function Execute(cfg: Configuration, cluster: string, componentName: string, version: string,
                   env: Environment, keepRepository: bool): (r: Execution)
    ensures ValidatePassedComponentVersions(cfg, componentName, version).Fail? ==> r == Execution([], true)
    ensures !IsClusterNameValid(cfg, cluster) ==> r == Execution([], true)
    ensures r.events != [] ==> r.events[0] == UseContext(cluster)
    ensures !env.useContext ==> r.exited && |r.events| <= 1
    ensures componentName == "coredns" && env.lookup(cluster, componentName).1.Fail? ==> |r.events| <= 1 && r.exited
    ensures |r.events| > 1 ==>
              var ref := env.lookup(cluster, componentName).0;
              r.events[1..] == SetComponentVersion(version, componentName, ref, env, keepRepository).events
    ensures && ValidatePassedComponentVersions(cfg, componentName, version) == Pass
            && IsClusterNameValid(cfg, cluster) && env.useContext
            && !(componentName == "coredns" && env.lookup(cluster, componentName).1.Fail?) ==>
              var written := SetComponentVersion(version, componentName, env.lookup(cluster, componentName).0, env, keepRepository);
              r == Execution([UseContext(cluster)] + written.events, written.exited)
  {
    if ValidatePassedComponentVersions(cfg, componentName, version).Fail? then Execution([], true)
    else if !IsClusterNameValid(cfg, cluster) then Execution([], true)
    else if !env.useContext then Execution([UseContext(cluster)], true)
    else
      var (ref, err) := env.lookup(cluster, componentName);
      match ParseComponent(componentName)
      case None => Execution([UseContext(cluster)], false)
      case Some(c) =>
        if c == CoreDns && err.Fail? then Execution([UseContext(cluster)], true)
        else
          var written := SetComponentVersion(version, componentName, ref, env, keepRepository);
          Execution([UseContext(cluster)] + written.events, written.exited)
  }

  /** The command as written. */
  function Run(cfg: Configuration, cluster: string, componentName: string, version: string, env: Environment): Execution
  {
    Execute(cfg, cluster, componentName, version, env, false)
  }

  /** The command with the image write keeping the repository. */
  function RunKeepingRepository(cfg: Configuration, cluster: string, componentName: string, version: string,
                                env: Environment): Execution
  {
    Execute(cfg, cluster, componentName, version, env, true)
  }

  /** A run that gets past validation, the cluster check and the context switch never reaches the
      "unsupported component" branch: it either ends on a fatal log or reads and writes the image. */
  lemma {:induction false} ValidatedRunReachesWrite(cfg: Configuration, cluster: string, componentName: string,
                                                    version: string, env: Environment, keepRepository: bool)
    requires ValidatePassedComponentVersions(cfg, componentName, version) == Pass
    requires IsClusterNameValid(cfg, cluster) && env.useContext
    ensures var r := Execute(cfg, cluster, componentName, version, env, keepRepository);
            r.exited || (|r.events| == 3 && r.events[2].SetImage?)
  {
    var c :| ComponentName(c) == componentName && VersionOf(cfg.components, c) == version;
    ParseComponentName(c);
  }

  /** A successful run writes the configured version of the component as the new tag of the image
      whose prefix was read from the cluster, to the workload the lookup names. */
  lemma {:induction false} SuccessfulRunWritesConfiguredVersion(cfg: Configuration, cluster: string, c: Component,
                                                                version: string, env: Environment, keepRepository: bool)
    requires ValidatePassedComponentVersions(cfg, ComponentName(c), version) == Pass
    requires IsClusterNameValid(cfg, cluster) && env.useContext
    requires !Execute(cfg, cluster, ComponentName(c), version, env, keepRepository).exited
    ensures env.getOutput.Success? && env.setOk
    ensures var ref := env.lookup(cluster, ComponentName(c)).0;
            Execute(cfg, cluster, ComponentName(c), version, env, keepRepository).events ==
              [ UseContext(cluster)
              , GetImage(ref.objectType, ComponentName(c), ref.namespace)
              , SetImage(SetTarget(ref), ref.containerName,
                         NewImage(env.getOutput.value, VersionOf(cfg.components, c), keepRepository), ref.namespace) ]
  {
    ParseComponentName(c);
    var d :| ComponentName(d) == ComponentName(c) && VersionOf(cfg.components, d) == version;
    ComponentNameInjective(c, d);
  }

  lemma ComponentNameInjective(c: Component, d: Component)
    requires ComponentName(c) == ComponentName(d)
    ensures c == d
  {
    ParseComponentName(c);
    ParseComponentName(d);
  }

  /** Outside coredns a failed lookup does not stop the command: it still reads and writes. */
  lemma {:induction false} LookupErrorOnlyLoggedOutsideCoreDns(cfg: Configuration, cluster: string, c: Component,
                                                                version: string, env: Environment, keepRepository: bool)
    requires c != CoreDns
    requires ValidatePassedComponentVersions(cfg, ComponentName(c), version) == Pass
    requires IsClusterNameValid(cfg, cluster) && env.useContext
    requires env.lookup(cluster, ComponentName(c)).1.Fail?
    ensures Execute(cfg, cluster, ComponentName(c), version, env, keepRepository).events[1]
            == GetImage(env.lookup(cluster, ComponentName(c)).0.objectType, ComponentName(c),
                        env.lookup(cluster, ComponentName(c)).0.namespace)
  {
    ParseComponentName(c);
  }
}
