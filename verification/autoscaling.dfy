/** The autoscaling-group freeze: an update request that sets the group's maximum size to its
    desired size, and the updater that delegates to it. The AWS call is an oracle answer. */
module Autoscaling {
  import opened Outcomes
  import opened Instance

  /** The tool's view of a group. */
  datatype AutoScalingGroup = AutoScalingGroup(
    instances: AwsInstances,
    desiredInstances: int,
    minInstances: int,
    maxInstances: int,
    asgName: string)

  const TwoTo31: int := 0x8000_0000
  const TwoTo32: int := 0x1_0000_0000

  /** Go's conversion `int32(x)`: two's-complement truncation to 32 bits. */
  function ToInt32(x: int): (r: int)
    ensures -TwoTo31 <= r < TwoTo31
    ensures (x - r) % TwoTo32 == 0
  {
    var m := x % TwoTo32;
    if m < TwoTo31 then m else m - TwoTo32
  }

  /** The conversion is exact exactly on the 32-bit range. */
  lemma ToInt32Exact(x: int)
    ensures ToInt32(x) == x <==> -TwoTo31 <= x < TwoTo31
  {
  }

  /** The one value in range congruent to `x` is the conversion of `x`. */
  lemma ToInt32Unique(x: int, y: int)
    requires -TwoTo31 <= y < TwoTo31 && (x - y) % TwoTo32 == 0
    ensures ToInt32(x) == y
  {
    var r := ToInt32(x);
    assert (r - y) % TwoTo32 == 0 by {
      assert r - y == (x - y) - (x - r);
    }
  }

  /** The request `UpdateAutoScalingGroup` receives. */
  datatype UpdateRequest = UpdateRequest(autoScalingGroupName: string, maxSize: int)

  /** The SDK's answer to an update; its contents are not inspected by the tool. */
  datatype UpdateOutput = UpdateOutput(responseMetadata: string)

  /** The client's call: the request built from the group, the output returned (an empty one on
      error) and the error. */
  datatype UpdateCall = UpdateCall(request: UpdateRequest, output: UpdateOutput, err: Outcome)

  /** `UpdateAutoScalingGroupCount`: ask AWS to set the group's maximum size to its desired size,
      truncated to 32 bits; `reply` is AWS's answer. */
  function UpdateAutoScalingGroupCount(asg: AutoScalingGroup, reply: Result<UpdateOutput>): (r: UpdateCall)
    ensures r.request.autoScalingGroupName == asg.asgName
    ensures -TwoTo31 <= asg.desiredInstances < TwoTo31 ==> r.request.maxSize == asg.desiredInstances
    ensures r.request.maxSize == ToInt32(asg.desiredInstances)
    ensures r.err == Pass <==> reply.Success?
    ensures reply.Success? ==> r.output == reply.value
    ensures reply.Failure? ==> r.output == UpdateOutput("") && r.err == Fail(reply.message)
  {
    ToInt32Exact(asg.desiredInstances);
    var request := UpdateRequest(asg.asgName, ToInt32(asg.desiredInstances));
    match reply
    case Failure(m) => UpdateCall(request, UpdateOutput(""), Fail(m))
    case Success(out) => UpdateCall(request, out, Pass)
  }

  /** What `Update` returns, and the calls it made to the client it wraps. */
  datatype Updated = Updated(result: Option<UpdateOutput>, err: Outcome, delegated: seq<AutoScalingGroup>)

  /** `AutoscalingGroupUpdater.Update`: one call to the wrapped client for its group; on error
      no result and the client's error, on success the client's result. `client` is the
      wrapped implementation's answer for a group (a mock in the tests). */
  function Update(asg: AutoScalingGroup, client: AutoScalingGroup -> UpdateCall): (r: Updated)
    ensures r.delegated == [asg]
    ensures r.err == client(asg).err
    ensures r.err.Fail? ==> r.result == None
    ensures r.err == Pass ==> r.result == Some(client(asg).output)
  {
    var call := client(asg);
    match call.err
    case Fail(_) => Updated(None, call.err, [asg])
    case Pass => Updated(Some(call.output), Pass, [asg])
  }

  /** Wrapping the real client: the error is AWS's, and a result is returned exactly on success. */
  lemma UpdatePropagatesClientError(asg: AutoScalingGroup, reply: Result<UpdateOutput>)
    ensures var r := Update(asg, g => UpdateAutoScalingGroupCount(g, reply));
            && (r.err == Pass <==> reply.Success?)
            && (r.result.Some? <==> reply.Success?)
            && (reply.Failure? ==> r.err == Fail(reply.message))
  {
  }
}
