# k8s-cluster-upgrade-tool, modelled in Dafny

This project models the core of `k8s-cluster-upgrade-tool`. It is a command-line tool that helps
upgrade a Kubernetes (EKS) cluster in four areas:

- It keeps a configuration of clusters and of the desired versions of four cluster components:
  `aws-node`, `cluster-autoscaler`, `coredns` and `kube-proxy`.
- It checks and sets the image tag those components run with.
- It takes a snapshot of an AWS autoscaling group's nodes.
- It freezes the group's maximum size, then taints and drains every node with `kubectl`.

The model is functional. Configurations, workloads, containers, instances and requests are
immutable datatypes, and every operation is a pure function. Each call to AWS, to the Kubernetes
API or to `kubectl` is an answer passed in as a parameter (an oracle). The commands return the
external calls they make as a trace of events, together with a flag saying whether a fatal log
ended the process.

Modules, one per source file:

- `Outcomes`: the error/result/option wrappers, and the loop that stops at the first fatal error.
- `Text`: Go's `strings.Split` on one character and `strings.Fields`.
- `Config`: `config/config.go`.
- `Cluster`: `internal/api/k8s/cluster.go`.
- `Instance`: `internal/api/aws/instance.go`.
- `Autoscaling`: `internal/api/aws/autoscaling.go`.
- `TaintAndDrain`: `cmd/taint_and_drain_asg.go`.
- `ComponentVersionCheck`: `cmd/k8sclusterupgradetool/component_version_check.go`.
- `ComponentVersionSet`: `cmd/k8sclusterupgradetool/component_version_set.go`.

Where the code and its description disagree, the model follows the code:

- `TaintNodes` and `DrainNodes` are not best-effort. The first failing node ends the process
  through `log.Fatal`, so the "taint error only logged, drain still runs" branch of
  `taint-and-drain-asg` can never run.
- A failed describe call in `GetInstancesForASG` is not fatal. It is only logged, and the
  command carries on with the snapshot as it was (see Findings).
- The tests of the configuration expect duplicate cluster names to be rejected. The code does
  not reject them.

## Model

| member | source | states |
|---|---|---|
| Text.Split | internal/api/k8s/cluster.go:25-27 | `strings.Split` on one character always gives at least one piece, no piece holds the separator, and there is exactly one piece iff the string has no separator |
| Text.JoinSplit | internal/api/k8s/cluster.go:25-27 | joining the pieces of a split with the separator gives back the original string |
| Text.SplitAtFirst | internal/api/k8s/cluster.go:25-27 | for a separator-free `x`, splitting `x + sep + y` gives `x` followed by the pieces of `y` |
| Text.Fields | internal/api/aws/instance.go:115 | every field `strings.Fields` returns is non-empty and free of white space; there are no fields iff the string is all white space, and a single token is its own only field |
| Text.FieldsTokenSpace | internal/api/aws/instance.go:115 | a token followed by white space is the first field, and the white space leaves no field |
| Config.ParseComponent | config/config.go:102-120 | a name maps to a component iff it is one of the four component names, and then to the component of that name |
| Config.ParseComponentName | config/config.go:102-120 | each component name identifies exactly one component |
| Config.EmptyFieldIffIncomplete | config/config.go:47 | the eleven-field emptiness test fails exactly for complete entries: name, region and account set, and every component object has a name and a type |
| Config.NoEntryHasEmptyField | config/config.go:45-51 | the validation loop answers true iff every entry of the list is complete |
| Config.IsClusterListConfigurationValid | config/config.go:44-52 | the cluster list is valid iff every entry is complete, so the empty list is valid |
| Config.ClusterListValidityDistributes | config/config.go:44-52 | validity of a concatenation is the conjunction of the validity of its parts |
| Config.ClusterListValidityIgnoresOrder | config/config.go:44-52 | two lists holding the same entries are equally valid, whatever the order |
| Config.DuplicateNamesAccepted | config/config.go:43-52 | a complete entry listed twice is a valid list, so duplicate names are not rejected |
| Config.VersionsSetIffAllSet | config/config.go:56 | the four-way emptiness test is false iff every component has a non-empty version |
| Config.IsComponentVersionConfigurationsValid | config/config.go:54-60 | the versions are valid iff each of the four components has a non-empty version |
| Config.ContainsName | config/config.go:63-69 | the loop answers true iff some element of the list carries the name |
| Config.IsClusterNameValid | config/config.go:62-70 | a cluster name is valid iff some element of the cluster list carries it |
| Config.FirstMatch | config/config.go:73-74 | a loop that returns on its first hit finds the first element with the name, and finds nothing iff no element has it |
| Config.FirstMatchUnique | config/config.go:73-74 | the first match is unique |
| Config.GetK8sObjectNameAndObjectTypeForCluster | config/config.go:72-90 | it succeeds iff the cluster name is valid and the component is one of the four. It then returns the object name and type of that component in the first matching entry. With no matching entry it returns empty strings and the cluster-name error. With a matching entry and an unknown component it returns the component-list error |
| Config.GetAwsAccountAndRegionForCluster | config/config.go:92-99 | it succeeds iff the name is valid and returns the account and region of the first matching entry; otherwise it returns empty strings and the no-account error |
| Config.AccountLookupAgreesWithNameCheck | config/config.go:62-99 | the account lookup succeeds exactly when the name check accepts the name, and then the object lookup for `coredns` succeeds too |
| Config.DuplicateNameAnswersFromFirst | config/config.go:92-99 | with two entries of the same name, the account lookup answers from the first |
| Config.ValidatePassedComponentVersions | config/config.go:101-124 | it accepts iff the name is one of the four and the version equals the configured one; a known name with another version gets that component's mismatch message, and an unknown name gets the list-of-names message |
| Config.ConfiguredVersion | cmd/k8sclusterupgradetool/component_version_check.go:89-90 | a component name has a configured version iff it is one of the four names, and the version is that component's |
| Cluster.BeforeColon | internal/api/k8s/cluster.go:27 | the reference prefix: a colon-free prefix of the string that is either all of it or followed by a colon |
| Cluster.SplitColon | internal/api/k8s/cluster.go:25-27 | the first piece of a split on `:` is the reference prefix, and the remaining pieces are those of the text after the first colon |
| Cluster.ParseComponentImage | internal/api/k8s/cluster.go:23-31 | `imagePrefix` gives the text before the first colon and `imageTag` the text between the first and second colon, both without error; any other section gives `""` and "invalid imageSection Passed". A tag request needs a colon in the image, since index 1 would not exist without one |
| Cluster.ImageRoundTrip | internal/api/k8s/cluster.go:23-31 | for colon-free `p` and `t`, parsing `p:t` gives back `p` as prefix and `t` as tag |
| Cluster.RegistryPortMisparse | internal/api/k8s/cluster.go:25-27 | for `host:port/path:tag` the parsed tag is `port/path` and the parsed prefix is `host` |
| Cluster.NonEmpty | internal/api/k8s/cluster.go:36-42 | removing the empty lines of a template never lengthens it; every line kept is non-empty and comes from the input, and every non-empty input line is kept |
| Cluster.NonEmptyAppend | internal/api/k8s/cluster.go:36-42 | dropping empty lines distributes over concatenation, so the kept lines stay in input order |
| Cluster.FieldsOfTemplate | internal/api/k8s/cluster.go:36-42 | when no line holds white space, splitting a multi-line command template into fields gives back its non-empty lines, in order |
| Cluster.TemplateOfTokens | internal/api/k8s/cluster.go:36-55 | a template whose lines are all tokens splits back into exactly its lines |
| Cluster.TaintCommandArguments | internal/api/k8s/cluster.go:34-43 | for a node name that is one token, the taint command splits into exactly `kubectl taint nodes <node> taintkey=k8s-cluster-upgrade-tool:NoSchedule` |
| Cluster.DrainCommandArguments | internal/api/k8s/cluster.go:46-56 | for a node name that is one token, the drain command splits into exactly `kubectl drain --ignore-daemonsets --force --delete-local-data <node>` |
| Cluster.TaintCommandWithoutNode | internal/api/k8s/cluster.go:34-43 | an empty node name leaves no argument behind, so the taint command then names no node |
| Cluster.EmptyLineDropped | internal/api/k8s/cluster.go:36-42 | an empty line between token lines contributes no field |
| Cluster.ParseKind | internal/api/k8s/cluster.go:112-143 | an object type names a kind iff it is `deployment` or `daemonset`, and it is that kind's name |
| Cluster.RewriteContainers | internal/api/k8s/cluster.go:159-164 | the rewrite keeps the length, the order and every name. Every container with the requested name gets the new image, and every other container is left untouched. The found flag ends true iff it started true or some container has the name |
| Cluster.RewriteIdempotent | internal/api/k8s/cluster.go:159-164 | a second rewrite with the same name and image changes nothing |
| Cluster.RewriteFlagOnlyAccumulates | internal/api/k8s/cluster.go:148-164 | the containers written do not depend on the flag the rewrite starts from, and a flag that starts true stays true |
| Cluster.GetContainerImageForK8sObject | internal/api/k8s/cluster.go:111-144 | a request is made iff the kind is supported, and it addresses that kind, name and namespace. The read succeeds iff the kind is supported and the object is found, and then yields the image of the first container. On error the image is empty, and an unsupported kind gets the "choose between Daemonset or Deployment" error |
| Cluster.UpdateAttempt | internal/api/k8s/cluster.go:151-196 | an attempt sends an update iff its read succeeded and the container was found in this attempt or an earlier one. What it sends is the rewrite of the object just read. It ends in success or in a retry exactly when the update is accepted or conflicts, and its found flag accumulates |
| Cluster.RetryOnConflict | internal/api/k8s/cluster.go:151-174 | every update sent is the rewrite of the object read in its own attempt, and every attempt before the last one sent met a conflict. The loop succeeds iff the last update sent was accepted. It does not give up early: an attempt whose read succeeds with the container found, now or before, sends an update, and after a conflict the next round is attempted, so when the last update sent met a conflict and rounds remain, the read of the next round failed |
| Cluster.SetK8sObjectImage | internal/api/k8s/cluster.go:147-204 | an unsupported kind is an error with nothing sent and no target. Otherwise the target is that kind, name and namespace, and the call succeeds iff the last update sent was accepted. Failures are prefixed "container image update failed: ", and the updates satisfy the retry properties. For a supported kind whose first read holds the container, at least one update is sent, and a conflict is retried while rounds remain |
| Cluster.MissingContainerNoUpdate | internal/api/k8s/cluster.go:159-167 | when the first object read lacks the container, nothing is sent and the error names the container and the kind |
| Cluster.AtMostOneAcceptedWrite | internal/api/k8s/cluster.go:151-171 | at most one update is accepted, and it is the last one sent |
| Cluster.FoundFlagPersistsAcrossAttempts | internal/api/k8s/cluster.go:148-167 | once an attempt that hit a conflict has found the container, a later attempt whose fresh read lacks it still sends the object unchanged and can succeed |
| Instance.AppendInstance | internal/api/aws/instance.go:28-30 | appending raises `Count` by one, keeps the earlier records and puts the new one last |
| Instance.RecordOf | internal/api/aws/instance.go:99-103 | the record carries the first instance's id and private DNS name and the group name passed in |
| Instance.CollectRunning | internal/api/aws/instance.go:97-108 | the loop completes iff the first instance of every reservation is running. Then the snapshot gains exactly one record per reservation, in order. The earlier records are always kept |
| Instance.GetInstancesForASG | internal/api/aws/instance.go:57-109 | a failed group describe leaves the snapshot as it was with no instance describe. Otherwise the instance describe asks for the group's instance ids. A failed instance describe leaves the snapshot as it was without ending the process. Otherwise the build completes iff every reservation is running, appending one record per reservation |
| Instance.SnapshotOfRunningGroup | internal/api/aws/instance.go:97-108 | from an empty snapshot, a complete build holds one record per reservation, in order, with its id, DNS name and the group name |
| Instance.GetInstancesForASGStrict | internal/api/aws/instance.go:67-96 | the corrected build ends the process on a failed describe, and agrees with the build as written whenever both describes succeed |
| Instance.NodeArgsList | internal/api/aws/instance.go:112-131 | one argument vector per instance, in snapshot order, built from its private DNS name |
| Outcomes.RunUntilFailure | internal/api/aws/instance.go:113-124 | the items reached are a prefix of the list, and all but the last one reached succeeded. The loop completes iff every item succeeds, and then all were reached. Otherwise the last one reached failed and ended the process |
| Instance.VisitNodes | internal/api/aws/instance.go:113-124 | the nodes a loop reaches are the DNS names of the first instances of the snapshot, in order. The loop completes iff the command succeeds on every node, and then it reaches all of them. Otherwise it stops at the first node whose command failed |
| Instance.TaintNodes | internal/api/aws/instance.go:112-125 | the i-th command issued taints the i-th instance's DNS name. Every node before the last one reached was tainted successfully. The loop completes iff every node was tainted successfully, and then it reached all of them. Otherwise the last node reached failed |
| Instance.DrainNodes | internal/api/aws/instance.go:128-142 | the i-th command issued drains the i-th instance's DNS name. Every node before the last one reached was drained successfully. The loop completes iff every node was drained successfully, and then it reached all of them. Otherwise the last node reached failed |
| Outcomes.RunConcat | cmd/taint_and_drain_asg.go:95-105 | running one list and then, if nothing failed, a second list is running their concatenation |
| Outcomes.RunsAgree | internal/api/aws/instance.go:113-124 | two loops whose steps succeed at the same positions stop at the same position, and end the process alike |
| Outcomes.RunIsPrefix | internal/api/aws/instance.go:113-124 | running the loop on the prefix it issued gives the same result, so nothing after the first failure matters |
| Instance.TaintArgsNameTheNode | internal/api/aws/instance.go:115 | for a one-token DNS name the executed taint arguments are exactly the five expected words |
| Instance.DrainArgsNameTheNode | internal/api/aws/instance.go:131 | for a one-token DNS name the executed drain arguments are exactly the six expected words |
| Autoscaling.ToInt32 | internal/api/aws/autoscaling.go:31 | the conversion lands in the 32-bit range and is congruent to its input modulo 2^32 |
| Autoscaling.ToInt32Unique | internal/api/aws/autoscaling.go:31 | the in-range value congruent to `x` is the conversion of `x` |
| Autoscaling.UpdateAutoScalingGroupCount | internal/api/aws/autoscaling.go:27-40 | the request names the group and asks for a maximum size equal to the desired count truncated to 32 bits, which is exact within the range. The error is AWS's, and the output is empty on error |
| Autoscaling.Update | internal/api/aws/autoscaling.go:49-55 | `Update` delegates exactly once, with its group unchanged. It returns the client's error, with no result on error and the client's result on success |
| Autoscaling.UpdatePropagatesClientError | internal/api/aws/autoscaling.go:27-55 | wrapping the real client, `Update` succeeds and returns a result exactly when AWS accepts the request, and returns AWS's error otherwise |
| TaintAndDrain.Preflight | cmd/taint_and_drain_asg.go:41-60 | an unknown cluster ends the process before any call. A known one switches context first. The preflight completes iff the name is valid and both the context switch and the AWS configuration load succeed. The configuration load uses the cluster's region and its account as profile |
| TaintAndDrain.FreezeRequest | cmd/taint_and_drain_asg.go:77-81 | the freeze targets the group passed and, below 2^31, asks for the snapshot's count as maximum size |
| TaintAndDrain.TaintThenDrain | cmd/taint_and_drain_asg.go:95-105 | the taint loop followed by the drain loop is one loop, stopping at the first failure, over the full trace: a taint of every node in order, then a drain of every node in order |
| TaintAndDrain.TaintThenDrainStopsAtFirstFailure | cmd/taint_and_drain_asg.go:95-105 | the trace is a prefix of the full trace in which every command but the last succeeded. A completed run issued the whole full trace, and an ended run stopped at a failing command |
| TaintAndDrain.CompletesIffEveryCommandSucceeds | cmd/taint_and_drain_asg.go:95-105 | the loops complete iff every node is tainted successfully and every node is drained successfully |
| TaintAndDrain.PrefixFacts | cmd/taint_and_drain_asg.go:95-105 | such a prefix holds only node commands. Every taint precedes every drain, and every command addresses a node of the snapshot. A drain appears only after every node was tainted successfully |
| TaintAndDrain.TraceRunsTheLoops | cmd/taint_and_drain_asg.go:95-105 | the command lines of the trace are exactly those `TaintNodes` runs, followed, when no taint failed, by those `DrainNodes` runs |
| TaintAndDrain.TraceExitsWithTheLoops | cmd/taint_and_drain_asg.go:95-105 | the process ends early iff the taint loop or the drain loop ended it |
| TaintAndDrain.Enforce | cmd/taint_and_drain_asg.go:76-105 | the freeze request comes first. A failed freeze ends the process before any node command. Otherwise the taint and drain loops follow |
| TaintAndDrain.Proceed | cmd/taint_and_drain_asg.go:62-106 | the lookups are kept as a prefix. A dry run or a fatal snapshot writes nothing. Otherwise the lookups are followed by exactly the freeze, taint and drain of `Enforce`, the freeze comes first, and every update is the freeze of the snapshot. A failed update means no node command. The node-command ordering and addressing facts hold |
| TaintAndDrain.AfterLookups | cmd/taint_and_drain_asg.go:65-106 | outside a dry run, the lookups are followed by the freeze, taint and drain of `Enforce`; the only update is the freeze, and the node-command ordering and addressing facts hold |
| TaintAndDrain.Execute | cmd/taint_and_drain_asg.go:36-107 | an unknown cluster makes no call at all, and a dry run makes no write. Every group update is the freeze to the snapshot's count. A failed freeze means no node command. Taints precede drains, and every node command addresses a snapshot node. Drains follow a fully successful taint loop. With a valid cluster and a successful context switch and configuration load, the run is the preflight and describe calls followed by what `Proceed` does with the snapshot. When the preflight ends the process (unknown cluster, failed context switch or failed configuration load), the run is exactly the preflight, with no AWS call or node command |
| TaintAndDrain.EnforceCompletes | cmd/taint_and_drain_asg.go:76-105 | when the freeze is accepted and every command succeeds, the trace is the freeze followed by the full trace, and the process does not end |
| TaintAndDrain.EveryNodeTaintedThenDrained | cmd/taint_and_drain_asg.go:36-107 | outside a dry run, with every call succeeding, the command makes the preflight and describe calls, freezes the group, taints every snapshot node in order and drains every snapshot node in order, and completes |
| TaintAndDrain.DefaultRunWritesNothing | cmd/taint_and_drain_asg.go:65-118 | with the default `--dry-run`, the command makes no group update and no node command |
| TaintAndDrain.DescribeFailureFreezesToZero | cmd/taint_and_drain_asg.go:62-91 | as written, a failed describe call leads, outside a dry run, to an update that sets the group's maximum size to 0 |
| TaintAndDrain.StrictDescribeFailureWritesNothing | internal/api/aws/instance.go:67-96 | with a failed describe call ending the process, the command writes nothing |
| TaintAndDrain.StrictAgreesWhenDescribed | cmd/taint_and_drain_asg.go:62-63 | when both describe calls succeed, the corrected command and the one as written coincide |
| ComponentVersionCheck.CheckComponentVersion | cmd/k8sclusterupgradetool/component_version_check.go:72-96 | a lookup error is returned unchanged with no read, and otherwise the read is the workload's image read. The check passes iff the lookup succeeds, the kind is supported and the workload is found. A passing check reports in sync iff the tag equals the configured version. A failing check makes no comparison |
| ComponentVersionCheck.StopAtFirstError | cmd/k8sclusterupgradetool/component_version_check.go:50-65 | the checks made are a prefix of the list, and all but the last one made passed. The run completes iff every check passes, and then every check was made. Otherwise the last check made failed and ended the process |
| ComponentVersionCheck.Run | cmd/k8sclusterupgradetool/component_version_check.go:28-70 | an unknown cluster ends the process before the client is initialised, and a failing client initialisation ends it before any check. The checks made are a prefix of those for aws-node, kube-proxy, coredns, cluster-autoscaler in that order, and all but the last one made passed. The run completes iff every check passes, and then every check was made. A run that got past the client and still ended stopped at a failing check |
| ComponentVersionCheck.OrderCoversAll | cmd/k8sclusterupgradetool/component_version_check.go:50-65 | passing in the fixed order means passing for each of the four components |
| ComponentVersionCheck.MismatchIsNotAnError | cmd/k8sclusterupgradetool/component_version_check.go:89-95 | with a good lookup and a found workload the check passes, in sync or not |
| ComponentVersionCheck.InSyncIffTagMatches | cmd/k8sclusterupgradetool/component_version_check.go:84-94 | for an image `prefix:tag` the check reports in sync iff `tag` is the configured version of the component |
| ComponentVersionSet.SetTarget | cmd/k8sclusterupgradetool/component_version_set.go:59 | the target is the object type, then `.apps/`, then the deployment name: it starts with the type, has `.apps/` right after it, and ends with the name |
| ComponentVersionSet.ComposeReplacesTag | cmd/k8sclusterupgradetool/component_version_set.go:109-113 | for an image with one colon, the new image keeps the repository and carries the new tag, and parsing it gives both back |
| ComponentVersionSet.ComposeDropsRegistryPath | cmd/k8sclusterupgradetool/component_version_set.go:109-113 | for `host:port/path:tag`, the image written is `host:<new tag>` |
| ComponentVersionSet.KeepingRepositoryReplacesTag | cmd/k8sclusterupgradetool/component_version_set.go:109-113 | the corrected composition keeps any repository, colons included, and replaces only the tag |
| ComponentVersionSet.CorrectionAgreesOnPlainImages | cmd/k8sclusterupgradetool/component_version_set.go:109-113 | on images with a single colon the corrected composition and the one as written agree |
| ComponentVersionSet.SetComponentVersion | cmd/k8sclusterupgradetool/component_version_set.go:101-122 | the image read comes first and names the object after the component. A failed read ends the process with nothing written. Otherwise exactly one write follows, of the new image to the `<type>.apps/<name>` target, and a failed write ends the process |
| ComponentVersionSet.Execute | cmd/k8sclusterupgradetool/component_version_set.go:21-82 | a rejected version or an unknown cluster ends the process before any call, and the context switch is the first call. A failed switch ends the process. A coredns lookup error ends it before any read. Anything after the switch is the read and write for the record the lookup returned. With a valid version and cluster, a successful switch and no coredns lookup error, the run is the switch followed by exactly the read and write of `SetComponentVersion` |
| ComponentVersionSet.ValidatedRunReachesWrite | cmd/k8sclusterupgradetool/component_version_set.go:40-80 | after validation, the cluster check and the context switch, the unsupported-component branch is unreachable: the run ends fatally or writes the image |
| ComponentVersionSet.SuccessfulRunWritesConfiguredVersion | cmd/k8sclusterupgradetool/component_version_set.go:40-122 | a run that completes switches context, reads, and writes the configured version as the new tag to the workload the lookup names |
| ComponentVersionSet.LookupErrorOnlyLoggedOutsideCoreDns | cmd/k8sclusterupgradetool/component_version_set.go:60-77 | outside coredns, a lookup error is only logged: the image is still read, for whatever record the lookup returned |

## Left out

- `config.Read` and `FileMetadata`: file and viper I/O. The configuration is a parameter.
- `KubeClientInit`, `buildConfigFromFlags` and the internals of `SetK8sContext`/`setK8sContext`:
  client bootstrap and `exec`. Each is a success/failure answer of the environment.
- `GetK8sObjectForCluster`, which the two component-version commands call:
  - it is not part of the modelled `config/config.go`, so it is a lookup function passed in;
  - what it returns on error is whatever that function returns.
- `KubectlGetImageCommand` and `KubectlSetImageCommand`:
  - they are not part of this model, so the two `kubectl` calls of the set command are trace events carrying their arguments;
  - the output of the read is an answer of the environment.
- The backoff schedule of `retry.RetryOnConflict`/`retry.DefaultRetry`:
  - it is library code, and the attempt budget is the length of the sequence of answer rounds;
  - time is not modelled.
- `internal/api/aws/config.go`: a thin wrapper over the SDK's configuration loader. It is modelled as a success/failure answer.
- The older command tree (`cmd/post_upgrade_check.go`, `cmd/set_component_version.go`) and all cobra wiring. Their pure logic duplicates the newer commands.
- `PrettyPrint` and all log output. Logging only matters where it ends the process, and that is modelled as the `exited` flag.
- The full Unicode white-space table of `strings.Fields`: only the characters Go's `unicode.IsSpace` accepts are listed. Characters are code points, with no encoding.
- Go panics on indexing: an image without a colon for `imageTag`, a workload without containers, a group describe without groups, and a reservation without instances. Each becomes a precondition.
- The text of errors wrapped with `%v`: a wrapped error is modelled as the plain message appended to the prefix.
- The `awserr.Error` type test on `err` rather than `ec2err` in `GetInstancesForASG`: both of its branches log and return, so the outcome does not depend on it.
- What AWS answers to `DescribeInstances` with an empty id list: that is AWS's behaviour, and its reply is a parameter.
- Test expectations the code does not implement:
  - the rejection of duplicate cluster names;
  - the `ClusterName`/`DeploymentName` field names;
  - quote stripping in image parsing;
  - `GetClusterAutoscalerDeploymentNameForCluster`.
- Config.ConfiguredVersion: compares with the version decoded as a string. The code compares `viper.Get`'s raw value, so an unquoted numeric version in the YAML (a float) never equals the tag string and is always reported out of sync; that typing is not modelled.
- Cluster.GetContainerImageForK8sObject: the error text is the plain message. The code passes the formatted message to `fmt.Errorf` as a format string (`internal/api/k8s/cluster.go:133`), so a `%` in the API's message would be read as a verb; format-verb expansion is not modelled.
- ComponentVersionSet.ComposeImageKeepingRepository: assumes the image carries a tag. For an untagged image with a registry port, such as `host:5000/img`, the last colon is the port's and the port is replaced.
- The image read by the set command names the object after the component, not after the configured deployment name. This is modelled as written, in the `GetImage` event.

## Findings

| source | as written | input that shows it | evidently intended | confidence | as-written member | corrected member |
|---|---|---|---|---|---|---|
| internal/api/aws/instance.go:67-96 | a failed `DescribeAutoScalingGroups` or `DescribeInstances` is only logged, and the command carries on with an empty snapshot | `--dry-run=false`, a valid cluster, and a group describe that fails with an AWS API error (throttling, expired credentials or `AccessDenied`): the command sends `UpdateAutoScalingGroup` with `MaxSize = 0` | a failed describe ends the process like every other failure of the command, with no write | medium, not executed | TaintAndDrain.DescribeFailureFreezesToZero | TaintAndDrain.StrictDescribeFailureWritesNothing |
| cmd/k8sclusterupgradetool/component_version_set.go:109-113 | the new image is the text before the first colon, a colon and the tag | current image `registry:5000/coredns:v1.8.0` with tag `v1.8.7` is written back as `registry:v1.8.7` | only the tag after the last colon is replaced: `registry:5000/coredns:v1.8.7` | medium, not executed | ComponentVersionSet.ComposeDropsRegistryPath | ComponentVersionSet.KeepingRepositoryReplacesTag |

`TaintAndDrain.RunStrict` and `Instance.GetInstancesForASGStrict` are the corrected command and
snapshot build for the first finding. `ComponentVersionSet.RunKeepingRepository` and
`ComponentVersionSet.ComposeImageKeepingRepository` are the corrected command and image
composition for the second.
