/** The health-check Lambda: it always answers 200 with a message naming the
    region taken from the function's ARN and the current time. It touches no
    table and no queue. */
module HealthCheck {
  import opened Common
  import opened Text

  datatype Body = Body(message: string)

  /** `invoked_function_arn.split(':')[3]`, with a missing field (nil)
      interpolated as the empty string. */
  function Region(arn: string): string
  {
    var fields := RubySplit(arn, ':');
    if |fields| > 3 then fields[3] else ""
  }

  /** The handler, with the ARN of the invoked function and the formatted
      time as parameters. */
  function Handler(arn: string, now: string): (response: Response<Body>)
    ensures response.statusCode == 200 && !response.isBase64Encoded
    ensures response.headers == [(AllowOriginHeader, "*"), (ContentTypeHeader, "application/json")]
    ensures response.body.message == "Success from " + Region(arn) + " at " + now
  {
    Response(false, 200, [(AllowOriginHeader, "*"), (ContentTypeHeader, "application/json")],
             Body("Success from " + Region(arn) + " at " + now))
  }

  /** Dropping trailing empty fields never changes field 3: the region is
      the fourth `:`-separated field of the ARN, or empty when it has fewer
      fields, and it holds no `:`. */
  lemma RegionIsFourthField(arn: string)
    ensures Region(arn) == (if |SplitAll(arn, ':')| > 3 then SplitAll(arn, ':')[3] else "")
    ensures ':' !in Region(arn)
  {
    SplitAllJoin(arn, ':');
  }

  /** For an ARN `arn:partition:service:region:...` the region is the one
      written in it. */
  lemma RegionOfArn(arn: string, partition: string, service: string, region: string, rest: string)
    requires ':' !in partition && ':' !in service && ':' !in region
    requires arn == "arn:" + partition + ":" + service + ":" + region + ":" + rest
    ensures Region(arn) == region
  {
    var t3 := region + ":" + rest;
    var t2 := service + ":" + t3;
    var t1 := partition + ":" + t2;
    assert arn == "arn" + [':'] + t1;
    SplitAllField("arn", t1, ':');
    assert t1 == partition + [':'] + t2;
    SplitAllField(partition, t2, ':');
    assert t2 == service + [':'] + t3;
    SplitAllField(service, t3, ':');
    assert t3 == region + [':'] + rest;
    SplitAllField(region, rest, ':');
    var f := SplitAll(arn, ':');
    assert f == ["arn", partition, service, region] + SplitAll(rest, ':');
    assert f[3] == region;
    RegionIsFourthField(arn);
  }
}
