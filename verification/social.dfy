/** `SocialMediaExtractor.collect_all_social_data`: which platform extractors run, how a Mastodon
    handle is taken apart, and the status dictionary it reports. */
module Social {
  import opened Wrappers
  import opened Text
  import opened Records
  import opened Paths

  /** The instance used when the handle does not name one. */
  const DefaultInstance: string := "mastodon.social"

  /** The arguments `extract_mastodon_data` is called with. */
  datatype MastodonCall = MastodonCall(user: string, instance: string)

  /** The Mastodon handle split on '@': with more than two parts, the second is the user and the
      third the instance; otherwise the whole handle goes to the default instance. So with fewer
      than two '@' (a bare name, or "user@instance") the handle is used as it is, and with two or
      more neither the user nor the instance contains '@'. */
  function MastodonCallFor(handle: string): (call: MastodonCall)
    ensures multiset(handle)['@'] < 2 ==> call == MastodonCall(handle, DefaultInstance)
    ensures multiset(handle)['@'] >= 2 ==> '@' !in call.user && '@' !in call.instance
  {
    var parts := SplitOn(handle, '@');
    if |parts| > 2 then MastodonCall(parts[1], parts[2]) else MastodonCall(handle, DefaultInstance)
  }

  /** A handle written "@user@instance" is taken apart into its user and instance. */
  lemma MastodonFullHandle(user: string, instance: string)
    requires '@' !in user && '@' !in instance
    ensures MastodonCallFor("@" + user + "@" + instance) == MastodonCall(user, instance)
  {
    var parts := ["", user, instance];
    assert JoinWith(parts[2..], "@") == instance;
    assert JoinWith(parts[1..], "@") == user + "@" + instance;
    assert JoinWith(parts, "@") == "" + "@" + (user + "@" + instance);
    assert "" + "@" + (user + "@" + instance) == "@" + user + "@" + instance;
    SplitOnJoin(parts, '@');
  }

  /** In general: a handle of three or more '@'-separated fields is called with the second field
      as the user and the third as the instance; any further fields are ignored. */
  lemma MastodonFields(parts: seq<string>)
    requires |parts| >= 3 && forall k :: 0 <= k < |parts| ==> '@' !in parts[k]
    ensures MastodonCallFor(JoinWith(parts, "@")) == MastodonCall(parts[1], parts[2])
  {
    SplitOnJoin(parts, '@');
  }

  /** The handle of the example run, "@hindustanunilever@mastodon.social", names user
      "hindustanunilever" on instance "mastodon.social". */
  lemma ExampleHandle(user: string, instance: string)
    requires user == "hindustanunilever" && instance == "mastodon.social"
    ensures MastodonCallFor("@" + user + "@" + instance) == MastodonCall(user, instance)
  {
    assert '@' !in user && '@' !in instance;
    MastodonFullHandle(user, instance);
  }

  /** How `extract_twitter_data` ends as written: True after a successful extraction. After a
      failure its handler calls `logger.info.error`, and that call raises in turn, since the
      bound method `logger.info` has no attribute `error`; the exception leaves the step. */
  function TwitterStepAsWritten(succeeded: bool): (outcome: StepOutcome)
    ensures outcome.Raised? <==> !succeeded
    ensures outcome.Returned? ==> outcome.ok
  {
    if succeeded then Returned(true) else Raised
  }

  /** How the step is evidently meant to end: the failure is logged and False is returned, so
      the step never raises. */
  function TwitterStep(succeeded: bool): (outcome: StepOutcome)
    ensures outcome.Returned?
    ensures outcome.ok <==> succeeded
  {
    Returned(succeeded)
  }

  /** A failed Twitter extraction raises as written, where it is meant to report False. */
  lemma FailedTwitterExtraction(succeeded: bool)
    requires !succeeded
    ensures TwitterStepAsWritten(succeeded) == Raised
    ensures TwitterStep(succeeded) == Returned(false)
    ensures TwitterStepAsWritten(succeeded) != TwitterStep(succeeded)
  {
  }

  /** The platform keys of the status dictionary. */
  const Platforms: set<string> := {"twitter", "bluesky", "mastodon", "threads"}

  /** Runs the extractor of every platform whose handle is truthy. Whether the Twitter extraction
      succeeds is an outside call, given as `twitter`, and its step reports that as intended
      (`TwitterStep`); the Bluesky, Mastodon and Threads extractors are placeholders that always
      return True. Returns the status dictionary, the Mastodon call made (if any) and the
      path the social data is written to. */
  method CollectAllSocialData(
    companyName: string,
    twitterHandle: Option<string>, blueskyHandle: Option<string>,
    mastodonHandle: Option<string>, threadsHandle: Option<string>,
    twitter: string -> bool)
    returns (status: map<string, bool>, mastodonCall: Option<MastodonCall>, filePath: string)
    ensures status.Keys == Platforms
    ensures status["twitter"] <==> Truthy(twitterHandle) && twitter(twitterHandle.value)
    ensures status["bluesky"] <==> Truthy(blueskyHandle)
    ensures status["mastodon"] <==> Truthy(mastodonHandle)
    ensures status["threads"] <==> Truthy(threadsHandle)
    ensures mastodonCall.Some? <==> Truthy(mastodonHandle)
    ensures mastodonCall.Some? ==> mastodonCall.value == MastodonCallFor(mastodonHandle.value)
    ensures filePath == SocialDataPath(companyName)
  {
    status := map["twitter" := false, "bluesky" := false, "mastodon" := false, "threads" := false];
    mastodonCall := None;
    if Truthy(twitterHandle) {
      status := status["twitter" := TwitterStep(twitter(twitterHandle.value)).ok];
    }
    if Truthy(blueskyHandle) {
      status := status["bluesky" := true];
    }
    if Truthy(mastodonHandle) {
      var handle := mastodonHandle.value;
      var parts := SplitOn(handle, '@');
      if |parts| > 2 {
        mastodonCall := Some(MastodonCall(parts[1], parts[2]));
      } else {
        mastodonCall := Some(MastodonCall(handle, DefaultInstance));
      }
      status := status["mastodon" := true];
    }
    if Truthy(threadsHandle) {
      status := status["threads" := true];
    }
    filePath := SocialDataPath(companyName);
  }
}
