/** The Kubernetes side of the tool: parsing a container image into prefix and tag, the
    `kubectl` taint and drain command lines, reading a workload's container image and
    rewriting it with retry on optimistic-concurrency conflicts. */
module Cluster {
  import opened Outcomes
  import opened Text

  /* ---------------- image strings ---------------- */

  const ImageSeparator: char := ':'
  const InvalidImageSectionError := "invalid imageSection Passed"

  /** Reference definition: the text of `s` before its first colon (all of `s` if it has none). */
  function BeforeColon(s: string): (f: string)
    ensures ImageSeparator !in f
    ensures f <= s
    ensures f == s || s[|f|] == ImageSeparator
    decreases |s|
  {
    if s == [] || s[0] == ImageSeparator then [] else [s[0]] + BeforeColon(s[1..])
  }

  /** Reference definition: the text of `s` after its first colon (empty if it has none). */
  function AfterColon(s: string): (t: string)
    ensures |t| < |s| || s == []
    ensures ImageSeparator !in s ==> t == []
    ensures ImageSeparator in s ==> s == BeforeColon(s) + [ImageSeparator] + t
    decreases |s|
  {
    if s == [] then [] else if s[0] == ImageSeparator then s[1..] else AfterColon(s[1..])
  }

  /** `strings.Split` on a colon agrees with the reference definitions: the first piece is
      the text before the first colon and the remaining pieces are those of the text after it. */
  lemma {:induction false} SplitColon(s: string)
    ensures Split(s, ImageSeparator)[0] == BeforeColon(s)
    ensures ImageSeparator in s ==> Split(s, ImageSeparator)[1..] == Split(AfterColon(s), ImageSeparator)
    decreases |s|
  {
    if s != [] && s[0] != ImageSeparator {
      SplitColon(s[1..]);
      if ImageSeparator in s {
        assert ImageSeparator in s[1..];
      }
    }
  }

  /** `ParseComponentImage(image, "imagePrefix")` is the text before the first colon and
      `ParseComponentImage(image, "imageTag")` the text between the first and the second colon
      (the image must then hold a colon); any other section is an error with an empty result. */
  function ParseComponentImage(image: string, imageSection: string): (r: (string, Outcome))
    requires imageSection == "imageTag" ==> ImageSeparator in image
    ensures imageSection == "imagePrefix" ==> r == (BeforeColon(image), Pass)
    ensures imageSection == "imageTag" ==> r == (BeforeColon(AfterColon(image)), Pass)
    ensures imageSection != "imageTag" && imageSection != "imagePrefix" ==> r == ("", Fail(InvalidImageSectionError))
  {
    var parts := Split(image, ImageSeparator);
    SplitColon(image);
    SplitColon(AfterColon(image));
    if imageSection == "imageTag" then
      (parts[1], Pass)
    else if imageSection == "imagePrefix" then
      (parts[0], Pass)
    else
      ("", Fail(InvalidImageSectionError))
  }

  /** Round trip: a prefix and a tag without colons, joined by a colon, parse back to themselves. */
  lemma ImageRoundTrip(prefix: string, tag: string)
    requires ImageSeparator !in prefix && ImageSeparator !in tag
    ensures ParseComponentImage(prefix + [ImageSeparator] + tag, "imagePrefix") == (prefix, Pass)
    ensures ParseComponentImage(prefix + [ImageSeparator] + tag, "imageTag") == (tag, Pass)
  {
    SplitAtFirst(prefix, ImageSeparator, tag);
    SplitNoSeparator(tag, ImageSeparator);
    assert Split(prefix + [ImageSeparator] + tag, ImageSeparator) == [prefix, tag];
  }

  /** An image from a registry with a port is misparsed: for `host:port/path:tag` the "tag"
      is `port/path` and the "prefix" is `host`. */
  lemma RegistryPortMisparse(host: string, portAndPath: string, tag: string)
    requires ImageSeparator !in host && ImageSeparator !in portAndPath && ImageSeparator !in tag
    ensures ParseComponentImage(host + [ImageSeparator] + portAndPath + [ImageSeparator] + tag, "imageTag")
            == (portAndPath, Pass)
    ensures ParseComponentImage(host + [ImageSeparator] + portAndPath + [ImageSeparator] + tag, "imagePrefix")
            == (host, Pass)
  {
    var rest := portAndPath + [ImageSeparator] + tag;
    assert host + [ImageSeparator] + portAndPath + [ImageSeparator] + tag == host + [ImageSeparator] + rest;
    SplitAtFirst(portAndPath, ImageSeparator, tag);
    SplitNoSeparator(tag, ImageSeparator);
    SplitAtFirst(host, ImageSeparator, rest);
    assert Split(host + [ImageSeparator] + rest, ImageSeparator) == [host, portAndPath, tag];
  }

  /* ---------------- kubectl command lines ---------------- */

  const TaintSpec := "taintkey=k8s-cluster-upgrade-tool:NoSchedule"

  /** Newline and tab: what separates the lines of the command templates. */
  const LineBreak := "\n\t"

  /** A command template: each line preceded by a newline and a tab, with one more line
      break at the end, as the tool's multi-line command strings are written. */
  function Template(lines: seq<string>): string
    decreases |lines|
  {
    if lines == [] then LineBreak else LineBreak + lines[0] + Template(lines[1..])
  }

  /** The non-empty entries of `lines`, in order. */
  function NonEmpty(lines: seq<string>): (r: seq<string>)
    ensures |r| <= |lines|
    ensures forall i | 0 <= i < |r| :: r[i] != [] && r[i] in lines
    ensures forall i | 0 <= i < |lines| && lines[i] != [] :: lines[i] in r
    decreases |lines|
  {
    if lines == [] then [] else (if lines[0] == [] then [] else [lines[0]]) + NonEmpty(lines[1..])
  }

  /** Lines that are all non-empty are kept as they are. */
  lemma {:induction false} NonEmptyKeepsAll(lines: seq<string>)
    requires forall i | 0 <= i < |lines| :: lines[i] != []
    ensures NonEmpty(lines) == lines
    decreases |lines|
  {
    if lines != [] {
      NonEmptyKeepsAll(lines[1..]);
    }
  }

  /** Dropping empty lines distributes over concatenation. */
  lemma {:induction false} NonEmptyAppend(a: seq<string>, b: seq<string>)
    ensures NonEmpty(a + b) == NonEmpty(a) + NonEmpty(b)
    decreases |a|
  {
    if a == [] {
      assert a + b == b;
    } else {
      assert (a + b)[1..] == a[1..] + b;
      NonEmptyAppend(a[1..], b);
    }
  }

  /** A template starts with a line break. */
  lemma TemplateStartsWithBreak(lines: seq<string>)
    ensures |Template(lines)| >= |LineBreak| && Template(lines) == LineBreak + Template(lines)[|LineBreak|..]
  {
  }

  /** One line of a template contributes itself as a field, unless it is empty. */
  lemma TemplateLine(line: string, tail: string)
    requires NoSpace(line)
    ensures Fields(LineBreak + line + (LineBreak + tail)) == (if line == [] then [] else [line]) + Fields(LineBreak + tail)
  {
    assert AllSpace(LineBreak);
    assert LineBreak + line + (LineBreak + tail) == LineBreak + (line + (LineBreak + tail));
    FieldsSkipSpace(LineBreak, line + (LineBreak + tail));
    if line == [] {
      assert line + (LineBreak + tail) == LineBreak + tail;
    } else {
      assert line + (LineBreak + tail) == line + LineBreak + tail;
      FieldsToken(line, LineBreak, tail);
    }
  }

  /** Splitting a template into fields gives back its lines, less the empty ones, provided no
      line holds white space. */
  lemma {:induction false} FieldsOfTemplate(lines: seq<string>)
    requires forall i | 0 <= i < |lines| :: NoSpace(lines[i])
    ensures Fields(Template(lines)) == NonEmpty(lines)
    decreases |lines|
  {
    if lines == [] {
      assert AllSpace(LineBreak);
      FieldsSkipSpace(LineBreak, []);
      assert LineBreak + [] == LineBreak;
    } else {
      var rest := Template(lines[1..]);
      FieldsOfTemplate(lines[1..]);
      TemplateStartsWithBreak(lines[1..]);
      var tail := rest[|LineBreak|..];
      TemplateLine(lines[0], tail);
      assert Template(lines) == LineBreak + lines[0] + (LineBreak + tail);
    }
  }

  function TaintLines(node: string): seq<string>
  {
    ["kubectl", "taint", "nodes", node, TaintSpec]
  }

  function DrainLines(node: string): seq<string>
  {
    ["kubectl", "drain", "--ignore-daemonsets", "--force", "--delete-local-data", node]
  }

  /** The taint command text, before splitting into arguments: the template with the node
      name as the fourth line. */
  function KubectlTaintNodeCommand(node: string): string
  {
    Template(TaintLines(node))
  }

  /** The drain command text, before splitting into arguments. */
  function KubectlDrainNodeCommand(node: string): string
  {
    Template(DrainLines(node))
  }

  /** A template whose lines are all tokens splits back into exactly those lines. */
  lemma TemplateOfTokens(lines: seq<string>)
    requires forall i | 0 <= i < |lines| :: IsToken(lines[i])
    ensures Fields(Template(lines)) == lines
  {
    FieldsOfTemplate(lines);
    NonEmptyKeepsAll(lines);
  }

  /** The fixed lines of both templates are tokens. */
  lemma FixedWordsAreTokens()
    ensures IsToken("kubectl") && IsToken("taint") && IsToken("nodes") && IsToken(TaintSpec)
    ensures IsToken("drain") && IsToken("--ignore-daemonsets") && IsToken("--force") && IsToken("--delete-local-data")
  {
    TaintWordsAreTokens();
    DrainWordsAreTokens();
  }

  lemma TaintWordsAreTokens()
    ensures IsToken("kubectl") && IsToken("taint") && IsToken("nodes") && IsToken(TaintSpec)
  {
    VisibleIsToken("kubectl");
    VisibleIsToken("taint");
    VisibleIsToken("nodes");
    VisibleIsToken(TaintSpec);
  }

  lemma DrainWordsAreTokens()
    ensures IsToken("drain") && IsToken("--ignore-daemonsets")
    ensures IsToken("--force") && IsToken("--delete-local-data")
  {
    VisibleIsToken("drain");
    VisibleIsToken("--ignore-daemonsets");
    VisibleIsToken("--force");
    VisibleIsToken("--delete-local-data");
  }

  lemma TaintLinesAreTokens(node: string)
    requires IsToken(node)
    ensures forall i | 0 <= i < |TaintLines(node)| :: IsToken(TaintLines(node)[i])
  {
    FixedWordsAreTokens();
  }

  lemma DrainLinesAreTokens(node: string)
    requires IsToken(node)
    ensures forall i | 0 <= i < |DrainLines(node)| :: IsToken(DrainLines(node)[i])
  {
    FixedWordsAreTokens();
  }

  /** For a node name that is one token, the taint command splits into exactly
      `kubectl taint nodes <node> taintkey=k8s-cluster-upgrade-tool:NoSchedule`. */
  lemma TaintCommandArguments(node: string)
    requires IsToken(node)
    ensures Fields(KubectlTaintNodeCommand(node)) == ["kubectl", "taint", "nodes", node, TaintSpec]
  {
    TaintLinesAreTokens(node);
    TemplateOfTokens(TaintLines(node));
  }

  /** For a node name that is one token, the drain command splits into exactly
      `kubectl drain --ignore-daemonsets --force --delete-local-data <node>`. */
  lemma DrainCommandArguments(node: string)
    requires IsToken(node)
    ensures Fields(KubectlDrainNodeCommand(node))
            == ["kubectl", "drain", "--ignore-daemonsets", "--force", "--delete-local-data", node]
  {
    DrainLinesAreTokens(node);
    TemplateOfTokens(DrainLines(node));
  }

  /** An empty node name vanishes from the taint command: the arguments then name no node. */
  lemma TaintCommandWithoutNode()
    ensures Fields(KubectlTaintNodeCommand("")) == ["kubectl", "taint", "nodes", TaintSpec]
  {
    var lines := TaintLines("");
    var head: seq<string> := ["kubectl", "taint", "nodes"];
    var tail: seq<string> := [TaintSpec];
    assert lines == head + ([""] + tail);
    FixedWordsAreTokens();
    EmptyLineDropped(head, tail);
  }

  lemma SpacedLinesNoSpace(head: seq<string>, tail: seq<string>)
    requires forall i | 0 <= i < |head| :: IsToken(head[i])
    requires forall i | 0 <= i < |tail| :: IsToken(tail[i])
    ensures forall i | 0 <= i < |head + ([""] + tail)| :: NoSpace((head + ([""] + tail))[i])
  {
    var lines := head + ([""] + tail);
    forall i | 0 <= i < |lines| ensures NoSpace(lines[i]) {
      if i < |head| {
        assert lines[i] == head[i];
      } else if i == |head| {
        assert lines[i] == "";
      } else {
        assert lines[i] == tail[i - |head| - 1];
      }
    }
  }

  /** An empty line between token lines leaves no field behind. */
  lemma EmptyLineDropped(head: seq<string>, tail: seq<string>)
    requires forall i | 0 <= i < |head| :: IsToken(head[i])
    requires forall i | 0 <= i < |tail| :: IsToken(tail[i])
    ensures Fields(Template(head + ([""] + tail))) == head + tail
  {
    SpacedLinesNoSpace(head, tail);
    FieldsOfTemplate(head + ([""] + tail));
    NonEmptyDropsOne(head, tail);
  }

  lemma NonEmptyDropsOne(head: seq<string>, tail: seq<string>)
    requires forall i | 0 <= i < |head| :: head[i] != []
    requires forall i | 0 <= i < |tail| :: tail[i] != []
    ensures NonEmpty(head + ([""] + tail)) == head + tail
  {
    NonEmptyAppend(head, [""] + tail);
    NonEmptyKeepsAll(head);
    NonEmptyKeepsAll(tail);
    NonEmptySkipsEmpty(tail);
  }

  lemma NonEmptySkipsEmpty(tail: seq<string>)
    ensures NonEmpty([""] + tail) == NonEmpty(tail)
  {
    var lines := [""] + tail;
    assert lines[0] == [];
    assert lines[1..] == tail;
  }

  /* ---------------- workloads and containers ---------------- */

  /** The workload kinds the tool supports. */
  datatype Kind = Deployment | DaemonSet

  function KindName(k: Kind): string
  {
    match k
    case Deployment => "deployment"
    case DaemonSet => "daemonset"
  }

  /** The kind a configured object type names; only `deployment` and `daemonset` are supported. */
  function ParseKind(objectType: string): (r: Option<Kind>)
    ensures r.Some? <==> objectType == "deployment" || objectType == "daemonset"
    ensures r.Some? ==> KindName(r.value) == objectType
  {
    if objectType == "deployment" then Some(Deployment)
    else if objectType == "daemonset" then Some(DaemonSet)
    else None
  }

  /** The workload a request addresses. */
  datatype WorkloadKey = WorkloadKey(kind: Kind, namespace: string, name: string)

  /** A container of a workload's pod template. */
  datatype Container = Container(name: string, image: string)

  /** One pass of the rewrite loop: every container named `containerName` gets `image`, and
      `found` becomes true once any container carries that name (it never goes back to false). */
  function RewriteContainers(containers: seq<Container>, containerName: string, image: string, found: bool)
    : (r: (seq<Container>, bool))
    ensures |r.0| == |containers|
    ensures forall i | 0 <= i < |containers| :: r.0[i].name == containers[i].name
    ensures forall i | 0 <= i < |containers| && containers[i].name == containerName :: r.0[i].image == image
    ensures forall i | 0 <= i < |containers| && containers[i].name != containerName :: r.0[i] == containers[i]
    ensures r.1 <==> found || Holds(containers, containerName)
    decreases |containers|
  {
    if containers == [] then ([], found)
    else
      var c := containers[0];
      var hit := c.name == containerName;
      var rest := RewriteContainers(containers[1..], containerName, image, found || hit);
      assert forall i | 1 <= i < |containers| :: containers[i] == containers[1..][i - 1];
      ([if hit then c.(image := image) else c] + rest.0, rest.1)
  }

  /** Rewriting is idempotent: a second pass with the same name and image changes nothing. */
  lemma RewriteIdempotent(containers: seq<Container>, containerName: string, image: string)
    ensures var once := RewriteContainers(containers, containerName, image, false).0;
            RewriteContainers(once, containerName, image, false).0 == once
  {
    var once := RewriteContainers(containers, containerName, image, false).0;
    var twice := RewriteContainers(once, containerName, image, false).0;
    assert forall i | 0 <= i < |once| :: twice[i] == once[i];
  }

  /** Which containers a rewrite finds and what it writes do not depend on the flag it starts from. */
  lemma RewriteFlagOnlyAccumulates(containers: seq<Container>, containerName: string, image: string)
    ensures RewriteContainers(containers, containerName, image, true).0
            == RewriteContainers(containers, containerName, image, false).0
    ensures RewriteContainers(containers, containerName, image, true).1
  {
    var a := RewriteContainers(containers, containerName, image, true).0;
    var b := RewriteContainers(containers, containerName, image, false).0;
    assert forall i | 0 <= i < |a| :: a[i] == b[i];
  }

  /* ---------------- reading a workload's image ---------------- */

  /** The cluster API's answer to a get of one workload. */
  datatype GetReply =
    | Found(containers: seq<Container>)
    | NotFound
    | StatusError(message: string)
    | OtherError

  /** The image read (empty on error), the error, and the workload requested from the API, if any. */
  datatype ImageRead = ImageRead(image: string, err: Outcome, request: Option<WorkloadKey>)

  const UnsupportedKindReadError := "please choose between Daemonset or Deployment k8sobject as they are currently supported"
  const RetrieveError := "there was an error while retrieving the container image"

  /** The image of the first container of a deployment or daemonset. Any other object type is an
      error and no request is made; an API failure is reported with the kind, name and namespace. */
  function GetContainerImageForK8sObject(k8sObjectName: string, k8sObject: string, namespace: string, reply: GetReply)
    : (r: ImageRead)
    requires reply.Found? ==> |reply.containers| > 0
    ensures r.request.Some? <==> ParseKind(k8sObject).Some?
    ensures r.request.Some? ==> r.request.value == WorkloadKey(ParseKind(k8sObject).value, namespace, k8sObjectName)
    ensures r.err == Pass <==> ParseKind(k8sObject).Some? && reply.Found?
    ensures r.err == Pass ==> r.image == reply.containers[0].image
    ensures r.err.Fail? ==> r.image == ""
    ensures ParseKind(k8sObject).None? ==> r.err == Fail(UnsupportedKindReadError)
  {
    match k8sObject
    case "deployment" =>
      var request := Some(WorkloadKey(Deployment, namespace, k8sObjectName));
      (match reply
       case NotFound =>
         ImageRead("", Fail("Deployment " + k8sObjectName + " in namespace " + namespace + " not found\n"), request)
       case StatusError(m) =>
         ImageRead("", Fail("Error getting deployment " + k8sObjectName + " in namespace " + namespace + ": " + m + "\n"), request)
       case OtherError => ImageRead("", Fail(RetrieveError), request)
       case Found(containers) => ImageRead(containers[0].image, Pass, request))
    case "daemonset" =>
      var request := Some(WorkloadKey(DaemonSet, namespace, k8sObjectName));
      (match reply
       case NotFound =>
         ImageRead("", Fail("daemonset " + k8sObjectName + " in namespace " + namespace + " not found\n"), request)
       case StatusError(m) =>
         ImageRead("", Fail("Error getting daemonset " + k8sObjectName + " in namespace " + namespace + ": " + m + "\n"), request)
       case OtherError => ImageRead("", Fail(RetrieveError), request)
       case Found(containers) => ImageRead(containers[0].image, Pass, request))
    case _ => ImageRead("", Fail(UnsupportedKindReadError), None)
  }

  /* ---------------- setting a workload's image ---------------- */

  /** The cluster API's answer to an update. */
  datatype UpdateReply = Updated | Conflict(message: string) | Rejected(message: string)

  /** What the API answers during one attempt: the latest object read (or the get error) and
      the answer to the update, if one is sent. */
  datatype Round = Round(latest: Result<seq<Container>>, reply: UpdateReply)

  /** How one attempt ends: success, a conflict (retried), or any other error (terminal). */
  datatype AttemptEnd = Done | Retry(message: string) | Stop(message: string)

  /** One attempt of the update closure: the rewritten containers it sends (if any), how it ends,
      and the container-found flag it leaves for the next attempt. */
  datatype Attempt = Attempt(write: Option<seq<Container>>, end: AttemptEnd, found: bool)

  /** The label the get failure uses ("Deployment"/"Daemonset") and the one the not-found error uses. */
  function GetLabel(k: Kind): string
  {
    match k
    case Deployment => "Deployment"
    case DaemonSet => "Daemonset"
  }

  function ContainerNotFoundError(k: Kind, containerName: string): string
  {
    "container " + containerName + " was not found in the " + KindName(k) + " object, skipping update"
  }

  /** One attempt: read the latest object, rewrite the named container, and send the update only
      if the container has been found, in this attempt or an earlier one. */
  function UpdateAttempt(k: Kind, containerName: string, image: string, found: bool, round: Round): (a: Attempt)
    ensures a.write.Some? ==> round.latest.Success? && a.found
    ensures a.write.Some? ==> a.write.value == RewriteContainers(round.latest.value, containerName, image, false).0
    ensures a.write.Some? <==> round.latest.Success? && (found || Holds(round.latest.value, containerName))
    ensures a.end.Done? <==> a.write.Some? && round.reply.Updated?
    ensures a.end.Retry? <==> a.write.Some? && round.reply.Conflict?
    ensures a.found <==> found || (round.latest.Success? && Holds(round.latest.value, containerName))
  {
    match round.latest
    case Failure(m) => Attempt(None, Stop("failed to get latest version of " + GetLabel(k) + ": " + m), found)
    case Success(containers) =>
      RewriteFlagOnlyAccumulates(containers, containerName, image);
      var (updated, found') := RewriteContainers(containers, containerName, image, found);
      if !found' then Attempt(None, Stop(ContainerNotFoundError(k, containerName)), found')
      else
        match round.reply
        case Updated => Attempt(Some(updated), Done, found')
        case Conflict(m) => Attempt(Some(updated), Retry(m), found')
        case Rejected(m) => Attempt(Some(updated), Stop(m), found')
  }

  /** Some container of the list carries the name. */
  predicate Holds(containers: seq<Container>, containerName: string)
  {
    exists i | 0 <= i < |containers| :: containers[i].name == containerName
  }

  /** Each update sent is the rewrite of the object read in the attempt that sent it. */
  ghost predicate WritesFollowReads(rounds: seq<Round>, writes: seq<seq<Container>>, containerName: string, image: string)
  {
    && |writes| <= |rounds|
    && forall i | 0 <= i < |writes| ::
         rounds[i].latest.Success? && writes[i] == RewriteContainers(rounds[i].latest.value, containerName, image, false).0
  }

  /** Every attempt before the `n`-th met a conflict. */
  ghost predicate ConflictsBefore(rounds: seq<Round>, n: nat)
  {
    forall i | 0 <= i < n - 1 && i < |rounds| :: rounds[i].reply.Conflict?
  }

  /** The last of `n` updates was accepted. */
  ghost predicate LastAccepted(rounds: seq<Round>, n: nat)
  {
    0 < n <= |rounds| && rounds[n - 1].reply.Updated?
  }

  /** A successful attempt in front of later ones extends what the later ones established. */
  lemma PrependWrite(rounds: seq<Round>, w: seq<Container>, writes: seq<seq<Container>>, containerName: string, image: string)
    requires |rounds| >= 1 && rounds[0].latest.Success?
    requires w == RewriteContainers(rounds[0].latest.value, containerName, image, false).0
    requires WritesFollowReads(rounds[1..], writes, containerName, image)
    ensures WritesFollowReads(rounds, [w] + writes, containerName, image)
  {
    var all := [w] + writes;
    forall i | 0 <= i < |all|
      ensures rounds[i].latest.Success?
      ensures all[i] == RewriteContainers(rounds[i].latest.value, containerName, image, false).0
    {
      if i > 0 {
        assert all[i] == writes[i - 1];
        assert rounds[i] == rounds[1..][i - 1];
      }
    }
  }

  /** A conflict in front of later attempts extends their conflict prefix and their acceptance. */
  lemma PrependConflict(rounds: seq<Round>, n: nat)
    requires |rounds| >= 1 && rounds[0].reply.Conflict?
    requires ConflictsBefore(rounds[1..], n)
    ensures ConflictsBefore(rounds, n + 1)
    ensures LastAccepted(rounds, n + 1) <==> LastAccepted(rounds[1..], n)
  {
    forall i | 0 <= i < n && i < |rounds|
      ensures rounds[i].reply.Conflict?
    {
      if i > 0 {
        assert rounds[i] == rounds[1..][i - 1];
      }
    }
    if 0 < n <= |rounds[1..]| {
      assert rounds[n] == rounds[1..][n - 1];
    }
  }

  /** The update an attempt sent, as a list of at most one. */
  function Sent(a: Attempt): (writes: seq<seq<Container>>)
    ensures |writes| <= 1 && (writes == [] <==> a.write.None?)
  {
    if a.write.Some? then [a.write.value] else []
  }

  /** An attempt on its own already has the properties of the retry loop. */
  lemma SingleAttempt(k: Kind, containerName: string, image: string, found: bool, rounds: seq<Round>)
    requires |rounds| >= 1
    ensures var a := UpdateAttempt(k, containerName, image, found, rounds[0]);
            && WritesFollowReads(rounds, Sent(a), containerName, image)
            && ConflictsBefore(rounds, |Sent(a)|)
            && (a.end.Done? <==> LastAccepted(rounds, |Sent(a)|))
  {
  }

  /** The loop does not give up early: an attempt whose read succeeds with the container found
      (now or before) sends an update, and after a conflict the next round is attempted, so
      when rounds remain after the last update sent, its conflict was followed by a failed read. */
  ghost predicate KeepsTrying(rounds: seq<Round>, found: bool, containerName: string, n: nat)
    requires |rounds| >= 1
  {
    && (rounds[0].latest.Success? && (found || Holds(rounds[0].latest.value, containerName)) ==> n >= 1)
    && (0 < n < |rounds| && rounds[n - 1].reply.Conflict? ==> rounds[n].latest.Failure?)
  }

  /** An attempt that ends without a retry, or with no round left, keeps trying. */
  lemma AttemptKeepsTrying(k: Kind, containerName: string, image: string, found: bool, rounds: seq<Round>)
    requires |rounds| >= 1
    requires var a := UpdateAttempt(k, containerName, image, found, rounds[0]); !a.end.Retry? || |rounds| == 1
    ensures KeepsTrying(rounds, found, containerName, |Sent(UpdateAttempt(k, containerName, image, found, rounds[0]))|)
  {
  }

  /** A conflicting attempt that sent an update, in front of later attempts that keep trying
      with the found flag set, keeps trying. */
  lemma PrependKeepsTrying(rounds: seq<Round>, found: bool, containerName: string, n: nat)
    requires |rounds| >= 2 && rounds[0].reply.Conflict?
    requires rounds[0].latest.Success? && (found || Holds(rounds[0].latest.value, containerName))
    requires KeepsTrying(rounds[1..], true, containerName, n)
    ensures KeepsTrying(rounds, found, containerName, n + 1)
  {
    assert rounds[1..][0] == rounds[1];
    if 0 < n < |rounds[1..]| {
      assert rounds[1..][n - 1] == rounds[n] && rounds[1..][n] == rounds[n + 1];
    }
  }

  /** The updates sent and the final error of the retry loop. */
  datatype Retried = Retried(err: Outcome, writes: seq<seq<Container>>)

  /** Retry on conflict: one attempt per round, as long as attempts end in a conflict and rounds
      remain; the last conflict is returned when the rounds run out. Every update sent is the
      rewrite of the object read in its own attempt; all but the last met a conflict; the loop
      succeeds iff the last update was accepted. */
  function RetryOnConflict(k: Kind, containerName: string, image: string, found: bool, rounds: seq<Round>)
    : (r: Retried)
    requires |rounds| >= 1
    ensures WritesFollowReads(rounds, r.writes, containerName, image)
    ensures ConflictsBefore(rounds, |r.writes|)
    ensures r.err == Pass <==> LastAccepted(rounds, |r.writes|)
    ensures KeepsTrying(rounds, found, containerName, |r.writes|)
    decreases |rounds|
  {
    var a := UpdateAttempt(k, containerName, image, found, rounds[0]);
    SingleAttempt(k, containerName, image, found, rounds);
    match a.end
    case Done => AttemptKeepsTrying(k, containerName, image, found, rounds); Retried(Pass, Sent(a))
    case Stop(m) => AttemptKeepsTrying(k, containerName, image, found, rounds); Retried(Fail(m), Sent(a))
    case Retry(m) =>
      if |rounds| == 1 then AttemptKeepsTrying(k, containerName, image, found, rounds); Retried(Fail(m), Sent(a))
      else
        var rest := RetryOnConflict(k, containerName, image, a.found, rounds[1..]);
        PrependWrite(rounds, a.write.value, rest.writes, containerName, image);
        PrependConflict(rounds, |rest.writes|);
        PrependKeepsTrying(rounds, found, containerName, |rest.writes|);
        Retried(rest.err, [a.write.value] + rest.writes)
  }

  /** The outcome of setting an image: the final error, the updates sent, and the workload addressed. */
  datatype ImageWrite = ImageWrite(err: Outcome, writes: seq<seq<Container>>, target: Option<WorkloadKey>)

  const UnsupportedKindWriteError := "please pass the k8sObject to be from daemonset or deployment"

  /** Set the image of the named container of a deployment or daemonset, retrying on conflict.
      Any other object type is an error and nothing is sent; a failure of the loop is reported
      as "container image update failed: ..."; success means exactly one update was accepted. */
  function SetK8sObjectImage(k8sObject: string, k8sObjectName: string, containerName: string, containerImage: string,
                             k8sNamespace: string, rounds: seq<Round>): (r: ImageWrite)
    requires |rounds| >= 1
    ensures ParseKind(k8sObject).None? ==> r == ImageWrite(Fail(UnsupportedKindWriteError), [], None)
    ensures ParseKind(k8sObject).Some? ==> r.target == Some(WorkloadKey(ParseKind(k8sObject).value, k8sNamespace, k8sObjectName))
    ensures r.err == Pass <==> ParseKind(k8sObject).Some? && LastAccepted(rounds, |r.writes|)
    ensures r.err.Fail? && ParseKind(k8sObject).Some? ==> "container image update failed: " <= r.err.message
    ensures WritesFollowReads(rounds, r.writes, containerName, containerImage)
    ensures ConflictsBefore(rounds, |r.writes|)
    ensures ParseKind(k8sObject).Some? ==> KeepsTrying(rounds, false, containerName, |r.writes|)
  {
    match ParseKind(k8sObject)
    case None => ImageWrite(Fail(UnsupportedKindWriteError), [], None)
    case Some(k) =>
      var loop := RetryOnConflict(k, containerName, containerImage, false, rounds);
      var target := Some(WorkloadKey(k, k8sNamespace, k8sObjectName));
      match loop.err
      case Pass => ImageWrite(Pass, loop.writes, target)
      case Fail(m) => ImageWrite(Fail("container image update failed: " + m), loop.writes, target)
  }

  /** When the container is absent from the object read first, nothing is sent and the error
      names the container and the kind. */
  lemma MissingContainerNoUpdate(k: Kind, k8sObjectName: string, containerName: string, containerImage: string,
                                 k8sNamespace: string, rounds: seq<Round>)
    requires |rounds| >= 1 && rounds[0].latest.Success?
    requires forall i | 0 <= i < |rounds[0].latest.value| :: rounds[0].latest.value[i].name != containerName
    ensures var r := SetK8sObjectImage(KindName(k), k8sObjectName, containerName, containerImage, k8sNamespace, rounds);
            r.writes == [] && r.err == Fail("container image update failed: " + ContainerNotFoundError(k, containerName))
  {
    assert ParseKind(KindName(k)) == Some(k);
  }

  /** At most one update is ever accepted, and on success it is the last one sent. */
  lemma AtMostOneAcceptedWrite(k8sObject: string, k8sObjectName: string, containerName: string, containerImage: string,
                               k8sNamespace: string, rounds: seq<Round>, i: int, j: int)
    requires |rounds| >= 1
    requires var r := SetK8sObjectImage(k8sObject, k8sObjectName, containerName, containerImage, k8sNamespace, rounds);
             0 <= i < |r.writes| && 0 <= j < |r.writes| && rounds[i].reply.Updated? && rounds[j].reply.Updated?
    ensures i == j
    ensures i == |SetK8sObjectImage(k8sObject, k8sObjectName, containerName, containerImage, k8sNamespace, rounds).writes| - 1
  {
  }

  /** The container-found flag survives across attempts: once a conflicting attempt found the
      container, a later attempt whose fresh read lacks it still sends an update, with the
      object unchanged, instead of reporting the container missing. */
  lemma FoundFlagPersistsAcrossAttempts(k: Kind, containerName: string, image: string,
                                        first: seq<Container>, second: seq<Container>, m: string)
    requires exists i | 0 <= i < |first| :: first[i].name == containerName
    requires forall i | 0 <= i < |second| :: second[i].name != containerName
    ensures var rounds := [Round(Success(first), Conflict(m)), Round(Success(second), Updated)];
            var r := RetryOnConflict(k, containerName, image, false, rounds);
            r.err == Pass && |r.writes| == 2 && r.writes[1] == second
  {
    var rounds := [Round(Success(first), Conflict(m)), Round(Success(second), Updated)];
    assert Holds(first, containerName);
    var a0 := UpdateAttempt(k, containerName, image, false, rounds[0]);
    assert a0.end.Retry? && a0.found;
    var a1 := UpdateAttempt(k, containerName, image, true, rounds[1]);
    assert a1.end.Done?;
    assert rounds[1..] == [rounds[1]];
    var rest := RetryOnConflict(k, containerName, image, true, rounds[1..]);
    assert rest == Retried(Pass, [a1.write.value]);
    var r := RetryOnConflict(k, containerName, image, false, rounds);
    assert r == Retried(rest.err, [a0.write.value] + rest.writes);
    assert r.writes == [a0.write.value, a1.write.value];
    var w := RewriteContainers(second, containerName, image, false).0;
    assert forall i | 0 <= i < |second| :: w[i] == second[i];
  }
}
