/** The tool's configuration: a list of cluster records and the desired version of each of the
    four managed components, with the validity predicates and first-match lookups over them. */
module Config {
  import opened Outcomes

  /** The four cluster components the tool manages. */
  datatype Component = AwsNode | ClusterAutoscaler | CoreDns | KubeProxy

  /** The name a component goes by on the command line and in the configuration file. */
  function ComponentName(c: Component): string
  {
    match c
    case AwsNode => "aws-node"
    case ClusterAutoscaler => "cluster-autoscaler"
    case CoreDns => "coredns"
    case KubeProxy => "kube-proxy"
  }

  /** The component a name stands for, if any. */
  function ParseComponent(name: string): (r: Option<Component>)
    ensures r.Some? ==> ComponentName(r.value) == name
    ensures r.None? <==> forall c: Component :: ComponentName(c) != name
  {
    if name == "aws-node" then Some(AwsNode)
    else if name == "cluster-autoscaler" then Some(ClusterAutoscaler)
    else if name == "coredns" then Some(CoreDns)
    else if name == "kube-proxy" then Some(KubeProxy)
    else None
  }

  /** Parsing a component's name gives the component back, so a name identifies at most one component. */
  lemma ParseComponentName(c: Component)
    ensures ParseComponent(ComponentName(c)) == Some(c)
    ensures forall d: Component :: ComponentName(d) == ComponentName(c) ==> d == c
  {
  }

  /** The workload a component runs as in one cluster: its object name and object kind. */
  datatype K8sObject = K8sObject(name: string, objectType: string)

  /** One element of the cluster list. */
  datatype ClusterEntry = ClusterEntry(
    name: string,
    awsRegion: string,
    awsAccount: string,
    awsNodeObject: K8sObject,
    clusterAutoscalerObject: K8sObject,
    coreDnsObject: K8sObject,
    kubeProxyObject: K8sObject)

  /** The desired version of each component. */
  datatype ComponentVersions = ComponentVersions(
    awsNode: string,
    clusterAutoscaler: string,
    coreDns: string,
    kubeProxy: string)

  datatype Configuration = Configuration(components: ComponentVersions, clusterList: seq<ClusterEntry>)

  /** The object a cluster entry declares for a component. */
  function ObjectOf(e: ClusterEntry, c: Component): K8sObject
  {
    match c
    case AwsNode => e.awsNodeObject
    case ClusterAutoscaler => e.clusterAutoscalerObject
    case CoreDns => e.coreDnsObject
    case KubeProxy => e.kubeProxyObject
  }

  /** The version the configuration declares for a component. */
  function VersionOf(v: ComponentVersions, c: Component): string
  {
    match c
    case AwsNode => v.awsNode
    case ClusterAutoscaler => v.clusterAutoscaler
    case CoreDns => v.coreDns
    case KubeProxy => v.kubeProxy
  }

  /** A cluster entry is complete when its name, region and account are set and every
      component's object has a name and a type. */
  ghost predicate EntryComplete(e: ClusterEntry)
  {
    && e.name != "" && e.awsRegion != "" && e.awsAccount != ""
    && forall c: Component :: ObjectOf(e, c).name != "" && ObjectOf(e, c).objectType != ""
  }

  /** The per-element test of the validation loop: some mandatory field is empty. */
  predicate HasEmptyField(e: ClusterEntry)
  {
    || e.name == "" || e.awsRegion == "" || e.awsAccount == ""
    || e.awsNodeObject.name == "" || e.awsNodeObject.objectType == ""
    || e.clusterAutoscalerObject.name == "" || e.clusterAutoscalerObject.objectType == ""
    || e.coreDnsObject.name == "" || e.coreDnsObject.objectType == ""
    || e.kubeProxyObject.name == "" || e.kubeProxyObject.objectType == ""
  }

  /** The eleven-field test of the loop says exactly that the entry is incomplete. */
  lemma EmptyFieldIffIncomplete(e: ClusterEntry)
    ensures !HasEmptyField(e) <==> EntryComplete(e)
  {
    if EntryComplete(e) {
      assert ObjectOf(e, AwsNode).name != "" && ObjectOf(e, AwsNode).objectType != "";
      assert ObjectOf(e, ClusterAutoscaler).name != "" && ObjectOf(e, ClusterAutoscaler).objectType != "";
      assert ObjectOf(e, CoreDns).name != "" && ObjectOf(e, CoreDns).objectType != "";
      assert ObjectOf(e, KubeProxy).name != "" && ObjectOf(e, KubeProxy).objectType != "";
    }
  }

  /** The validation loop: no element of the list has an empty mandatory field. */
  function NoEntryHasEmptyField(list: seq<ClusterEntry>): (valid: bool)
    ensures valid <==> forall i | 0 <= i < |list| :: EntryComplete(list[i])
    decreases |list|
  {
    if list == [] then true
    else
      EmptyFieldIffIncomplete(list[0]);
      assert forall i | 1 <= i < |list| :: list[i] == list[1..][i - 1];
      !HasEmptyField(list[0]) && NoEntryHasEmptyField(list[1..])
  }

  /** The cluster list is valid iff every entry is complete; the empty list is valid. */
  function IsClusterListConfigurationValid(cfg: Configuration): (valid: bool)
    ensures valid <==> forall i | 0 <= i < |cfg.clusterList| :: EntryComplete(cfg.clusterList[i])
  {
    NoEntryHasEmptyField(cfg.clusterList)
  }

  /** The four-field test says exactly that every component has a version. */
  lemma VersionsSetIffAllSet(v: ComponentVersions)
    ensures !(v.coreDns == "" || v.awsNode == "" || v.clusterAutoscaler == "" || v.kubeProxy == "")
            <==> forall c: Component :: VersionOf(v, c) != ""
  {
    if !(v.coreDns == "" || v.awsNode == "" || v.clusterAutoscaler == "" || v.kubeProxy == "") {
      forall c: Component ensures VersionOf(v, c) != "" {
        match c
        case AwsNode =>
        case ClusterAutoscaler =>
        case CoreDns =>
        case KubeProxy =>
      }
    } else {
      assert VersionOf(v, CoreDns) == "" || VersionOf(v, AwsNode) == ""
          || VersionOf(v, ClusterAutoscaler) == "" || VersionOf(v, KubeProxy) == "";
    }
  }

  /** The component versions are valid iff every component has a non-empty version. */
  function IsComponentVersionConfigurationsValid(cfg: Configuration): (valid: bool)
    ensures valid <==> forall c: Component :: VersionOf(cfg.components, c) != ""
  {
    var v := cfg.components;
    VersionsSetIffAllSet(v);
    !(v.coreDns == "" || v.awsNode == "" || v.clusterAutoscaler == "" || v.kubeProxy == "")
  }

  /** Whether some element of the list carries the name. */
  function ContainsName(list: seq<ClusterEntry>, clusterName: string): (contains: bool)
    ensures contains <==> exists i | 0 <= i < |list| :: list[i].name == clusterName
    decreases |list|
  {
    if list == [] then false
    else
      assert forall i | 1 <= i < |list| :: list[i] == list[1..][i - 1];
      list[0].name == clusterName || ContainsName(list[1..], clusterName)
  }

  /** A cluster name is valid iff some element of the cluster list carries it. */
  function IsClusterNameValid(cfg: Configuration, clusterName: string): (contains: bool)
    ensures contains <==> exists i | 0 <= i < |cfg.clusterList| :: cfg.clusterList[i].name == clusterName
  {
    ContainsName(cfg.clusterList, clusterName)
  }

  /** `i` is the position of the first element of the list named `clusterName`. */
  ghost predicate IsFirstMatch(list: seq<ClusterEntry>, clusterName: string, i: int)
  {
    0 <= i < |list| && list[i].name == clusterName && forall j | 0 <= j < i :: list[j].name != clusterName
  }

  /** The position of the first element named `clusterName`, as a loop that returns on its first hit finds it. */
  function FirstMatch(list: seq<ClusterEntry>, clusterName: string): (r: Option<nat>)
    ensures r.Some? ==> IsFirstMatch(list, clusterName, r.value)
    ensures r.None? <==> forall j | 0 <= j < |list| :: list[j].name != clusterName
    decreases |list|
  {
    if list == [] then None
    else if list[0].name == clusterName then Some(0)
    else
      assert forall j | 1 <= j < |list| :: list[j] == list[1..][j - 1];
      match FirstMatch(list[1..], clusterName)
      case None => None
      case Some(k) => Some(k + 1)
  }

  /** There is exactly one first match. */
  lemma FirstMatchUnique(list: seq<ClusterEntry>, clusterName: string, i: int, j: int)
    requires IsFirstMatch(list, clusterName, i) && IsFirstMatch(list, clusterName, j)
    ensures i == j
  {
  }

  const ClusterNotFoundError := "please check if you passed a valid cluster name"
  const UnknownComponentError := "please pass any of the components between aws-node, coredns, cluster-autoscaler, kube-proxy"
  const NoAccountError := "no awsAccount and awsRegion was found for the passed clusterName"
  const InvalidComponentNameError := "please pass a valid component name from this list [coredns, cluster-autoscaler, kube-proxy, aws-node]"

  /** The object name and object type of a component in the first cluster named `clusterName`.
      An unknown component is reported as soon as the cluster is found; a cluster name that no
      element carries is reported whatever the component. Errors come with empty strings. */
  function GetK8sObjectNameAndObjectTypeForCluster(cfg: Configuration, clusterName: string, k8sObject: string)
    : (r: (string, string, Outcome))
    ensures r.2 == Pass <==> IsClusterNameValid(cfg, clusterName) && ParseComponent(k8sObject).Some?
    ensures !IsClusterNameValid(cfg, clusterName) ==> r == ("", "", Fail(ClusterNotFoundError))
    ensures (IsClusterNameValid(cfg, clusterName) && forall c: Component :: ComponentName(c) != k8sObject)
              ==> r == ("", "", Fail(UnknownComponentError))
    ensures forall i: int, c: Component
              | IsFirstMatch(cfg.clusterList, clusterName, i) && ComponentName(c) == k8sObject
              :: r == (ObjectOf(cfg.clusterList[i], c).name, ObjectOf(cfg.clusterList[i], c).objectType, Pass)
  {
    match FirstMatch(cfg.clusterList, clusterName)
    case None => ("", "", Fail(ClusterNotFoundError))
    case Some(i) =>
      match ParseComponent(k8sObject)
      case None => ("", "", Fail(UnknownComponentError))
      case Some(c) =>
        ParseComponentName(c);
        (ObjectOf(cfg.clusterList[i], c).name, ObjectOf(cfg.clusterList[i], c).objectType, Pass)
  }

  /** The account and region of the first cluster named `clusterName`; it succeeds exactly
      when the name is valid, and otherwise returns empty strings and an error. */
  function GetAwsAccountAndRegionForCluster(cfg: Configuration, clusterName: string): (r: (string, string, Outcome))
    ensures r.2 == Pass <==> IsClusterNameValid(cfg, clusterName)
    ensures forall i | IsFirstMatch(cfg.clusterList, clusterName, i)
              :: r == (cfg.clusterList[i].awsAccount, cfg.clusterList[i].awsRegion, Pass)
    ensures !IsClusterNameValid(cfg, clusterName) ==> r == ("", "", Fail(NoAccountError))
  {
    match FirstMatch(cfg.clusterList, clusterName)
    case None => ("", "", Fail(NoAccountError))
    case Some(i) => (cfg.clusterList[i].awsAccount, cfg.clusterList[i].awsRegion, Pass)
  }

  const VersionMismatchSuffix := " component version passed doesn't match the version in config, please check the value in config file"

  /** The error for a known component whose requested version differs from the configured one. */
  function VersionMismatchError(c: Component): string
  {
    ComponentName(c) + VersionMismatchSuffix
  }

  /** A requested component version is accepted iff the component is one of the four and the
      version is the configured one; a known name with another version gets that component's
      mismatch error and an unknown name gets the list of valid names. */
  function ValidatePassedComponentVersions(cfg: Configuration, componentName: string, componentVersion: string)
    : (err: Outcome)
    ensures err == Pass <==>
              exists c: Component :: ComponentName(c) == componentName && VersionOf(cfg.components, c) == componentVersion
    ensures forall c: Component | ComponentName(c) == componentName && VersionOf(cfg.components, c) != componentVersion
              :: err == Fail(VersionMismatchError(c))
    ensures (forall c: Component :: ComponentName(c) != componentName) ==> err == Fail(InvalidComponentNameError)
  {
    match ParseComponent(componentName)
    case None => Fail(InvalidComponentNameError)
    case Some(c) =>
      ParseComponentName(c);
      if componentVersion != VersionOf(cfg.components, c) then Fail(VersionMismatchError(c)) else Pass
  }

  /** The lookup by name succeeds exactly when the name check says the name is valid. */
  lemma {:induction false} AccountLookupAgreesWithNameCheck(cfg: Configuration, clusterName: string)
    ensures GetAwsAccountAndRegionForCluster(cfg, clusterName).2.Pass? <==> IsClusterNameValid(cfg, clusterName)
    ensures IsClusterNameValid(cfg, clusterName) ==>
              GetK8sObjectNameAndObjectTypeForCluster(cfg, clusterName, "coredns").2 == Pass
  {
    assert ParseComponent("coredns") == Some(CoreDns);
  }

  /** The validity of the cluster list is a property of each entry on its own: it holds of a
      concatenation iff it holds of both parts. */
  lemma ClusterListValidityDistributes(a: seq<ClusterEntry>, b: seq<ClusterEntry>, components: ComponentVersions)
    ensures IsClusterListConfigurationValid(Configuration(components, a + b))
            <==> IsClusterListConfigurationValid(Configuration(components, a))
                 && IsClusterListConfigurationValid(Configuration(components, b))
  {
    var ab := a + b;
    assert forall i | 0 <= i < |a| :: ab[i] == a[i];
    assert forall i | 0 <= i < |b| :: ab[|a| + i] == b[i];
    if forall i | 0 <= i < |a| :: EntryComplete(a[i]) {
      if forall i | 0 <= i < |b| :: EntryComplete(b[i]) {
        forall k | 0 <= k < |ab| ensures EntryComplete(ab[k]) {
          if k >= |a| {
            assert ab[k] == b[k - |a|];
          }
        }
      }
    }
  }

  /** Reordering the cluster list does not change its validity. */
  lemma ClusterListValidityIgnoresOrder(a: seq<ClusterEntry>, b: seq<ClusterEntry>, components: ComponentVersions)
    requires multiset(a) == multiset(b)
    ensures IsClusterListConfigurationValid(Configuration(components, a))
            <==> IsClusterListConfigurationValid(Configuration(components, b))
  {
    forall i | 0 <= i < |a| ensures a[i] in b {
      assert a[i] in multiset(a);
    }
    forall i | 0 <= i < |b| ensures b[i] in a {
      assert b[i] in multiset(b);
    }
  }

  /** Duplicate cluster names are not rejected: a complete entry listed twice is a valid list. */
  lemma DuplicateNamesAccepted(e: ClusterEntry, components: ComponentVersions)
    requires EntryComplete(e)
    ensures IsClusterListConfigurationValid(Configuration(components, [e, e]))
    ensures IsClusterNameValid(Configuration(components, [e, e]), e.name)
  {
    assert [e, e][0].name == e.name;
  }

  /** With a duplicate name the lookups answer from the first entry carrying it. */
  lemma {:induction false} DuplicateNameAnswersFromFirst(cfg: Configuration, e: ClusterEntry, f: ClusterEntry)
    requires cfg.clusterList == [e, f] && e.name == f.name
    ensures GetAwsAccountAndRegionForCluster(cfg, f.name) == (e.awsAccount, e.awsRegion, Pass)
  {
    assert IsFirstMatch(cfg.clusterList, f.name, 0);
  }

  /** The workload record the two component-version commands look up per cluster and component
      (`GetK8sObjectForCluster`); the lookup itself is not part of the configuration modelled
      here and is passed to the commands as a function. */
  datatype WorkloadRef = WorkloadRef(objectType: string, deploymentName: string, containerName: string, namespace: string)

  /** `GetK8sObjectForCluster(clusterName, componentName)`: the record and the error. */
  type WorkloadLookup = (string, string) -> (WorkloadRef, Outcome)

  /** The configured version of a component named by its string, if the name is one of the four. */
  function ConfiguredVersion(cfg: Configuration, componentName: string): (v: Option<string>)
    ensures v.Some? <==> exists c: Component :: ComponentName(c) == componentName
    ensures forall c: Component | ComponentName(c) == componentName :: v == Some(VersionOf(cfg.components, c))
  {
    match ParseComponent(componentName)
    case None => None
    case Some(c) =>
      ParseComponentName(c);
      Some(VersionOf(cfg.components, c))
  }
}
