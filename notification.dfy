/**
 * Notifications of the newer Go service layer (internal/service/notification.go):
 * flag-gated success and error alerts, the webhook post, the restart-warning
 * countdown and the two health checks.
 *
 * The webhook's answer to the k-th post of a run is the parameter `post(k)`;
 * waiting is recorded as the list of waits in minutes. Cancellation of the
 * context is not modelled.
 */
module Notification {
  import opened Results
  import opened Text
  import opened Discord
  import opened Ordering
  import Domain
  import opened CraftopsConfig

  const WebhookPrefix := "https://discord.com/api/webhooks/"
  const RefusedMessage := "Discord API error"

  /**
   * What became of one post: the request could not be built (a malformed
   * webhook URL), the client failed, or the webhook answered with a status.
   */
  datatype PostOutcome = Answered(status: int) | TransportError(err: string) | RequestError(err: string)

  predicate Delivered(o: PostOutcome) {
    o.Answered? && Accepted(o.status)
  }

  /**
   * The error `sendDiscord` returns: the one from building the request or
   * from the client, unchanged, or an `APIError` for a refused post. That
   * `APIError` always names the configured webhook and the same message, so
   * only its status is kept here; `RefusedError` rebuilds it.
   */
  datatype Failure = Transport(message: string) | Refused(status: int)

  /** The `APIError` of a post the webhook refused. */
  function RefusedError(webhook: string, status: int): (e: Domain.APIError)
    ensures e.url == webhook && e.statusCode == status && e.message == RefusedMessage
  {
    Domain.APIError(webhook, status, RefusedMessage)
  }

  /** The text of the error, as its `Error` method gives it. */
  function FailureText(f: Failure, webhook: string): (r: string)
    ensures f.Transport? ==> r == f.message
    ensures f.Refused? ==> HasPrefix(r, "API error") && HasSuffix(r, " (url: " + webhook + ")")
  {
    match f
    case Transport(m) => m
    case Refused(status) => Domain.APIErrorText(RefusedError(webhook, status))
  }

  /** The embed that was posted, if a post was made, and the error returned. */
  datatype Sending = Sending(posted: Option<Embed>, err: Option<Failure>)

  /** No post is made without a webhook or in dry-run mode. */
  predicate Muted(cfg: NotificationConfig, dryRun: bool) {
    cfg.discordWebhook == "" || dryRun
  }

  /** The error of a post that was made: the transport error, or a refusal for a status other than 200 and 204. */
  function PostError(post: PostOutcome): (r: Option<Failure>)
    ensures r.None? <==> Delivered(post)
    ensures !post.Answered? ==> r == Some(Transport(post.err))
    ensures post.Answered? && r.Some? ==> r == Some(Refused(post.status))
  {
    match post
    case TransportError(e) => Some(Transport(e))
    case RequestError(e) => Some(Transport(e))
    case Answered(status) => if Accepted(status) then None else Some(Refused(status))
  }

  /** `sendDiscord`: no post without a webhook or in dry-run mode; otherwise the capped message and the post's error. */
  function SendDiscord(cfg: NotificationConfig, dryRun: bool, title: string, message: string, color: int, post: PostOutcome): (r: Sending)
    ensures r.posted.None? <==> Muted(cfg, dryRun)
    ensures r.posted.None? ==> r.err.None?
    ensures r.posted.Some? ==> r.posted.value == Embed(title, Truncate(message), color)
    ensures r.posted.Some? ==> r.err == PostError(post)
  {
    if cfg.discordWebhook == "" then Sending(None, None)
    else if dryRun then Sending(None, None)
    else Sending(Some(MakeEmbed(title, message, color)), PostError(post))
  }

  /** `SendSuccess`: a green "Success" post, only when success notifications are on. */
  function SendSuccess(cfg: NotificationConfig, dryRun: bool, message: string, post: PostOutcome): (r: Sending)
    ensures !cfg.successNotifications ==> r == Sending(None, None)
    ensures r.posted.Some? ==> cfg.successNotifications && r.posted.value.title == "Success" && r.posted.value.color == Green
  {
    if !cfg.successNotifications then Sending(None, None)
    else SendDiscord(cfg, dryRun, "Success", message, Green, post)
  }

  /** `SendError`: a red "Error" post, only when error notifications are on. */
  function SendError(cfg: NotificationConfig, dryRun: bool, message: string, post: PostOutcome): (r: Sending)
    ensures !cfg.errorNotifications ==> r == Sending(None, None)
    ensures r.posted.Some? ==> cfg.errorNotifications && r.posted.value.title == "Error" && r.posted.value.color == Red
  {
    if !cfg.errorNotifications then Sending(None, None)
    else SendDiscord(cfg, dryRun, "Error", message, Red, post)
  }

  // ------------------------------------------------------ restart warnings

  const WarningTitle := "Server Restart Warning"

  /** The warning text: every "{minutes}" replaced by the interval in decimal. */
  function WarningText(template: string, minutes: int): string {
    ReplaceAll(template, "{minutes}", IntToString(minutes))
  }

  /** The orange embed announcing the restart `minutes` ahead. */
  function WarningEmbed(template: string, minutes: int): (e: Embed)
    ensures e.title == WarningTitle && e.color == Orange && |e.description| <= MaxLength
  {
    MakeEmbed(WarningTitle, WarningText(template, minutes), Orange)
  }

  /** One step of the countdown: the warning for `minutes` is that embed, or nothing when muted. */
  lemma WarningPost(cfg: NotificationConfig, dryRun: bool, minutes: int, post: PostOutcome)
    ensures var s := SendDiscord(cfg, dryRun, WarningTitle, WarningText(cfg.warningMessage, minutes), Orange, post);
      s.posted == (if Muted(cfg, dryRun) then None else Some(WarningEmbed(cfg.warningMessage, minutes))) &&
      s.err == (if Muted(cfg, dryRun) then None else PostError(post))
  {
  }

  /**
   * A countdown run: the intervals whose warning was posted, in order, the
   * waits taken in minutes, and the error that ended it, if any.
   */
  datatype Warnings = Warnings(announced: seq<int>, waits: seq<int>, err: Option<Failure>)

  /** The countdown from position `i` of the sorted intervals on; `post(k)` answers the k-th post. */
  function WarningsFrom(sorted: seq<int>, cfg: NotificationConfig, dryRun: bool, post: nat -> PostOutcome, i: nat): Warnings
    decreases |sorted| - i
  {
    if i >= |sorted| then Warnings([], [], None)
    else
      var announced := if Muted(cfg, dryRun) then [] else [sorted[i]];
      var err := if Muted(cfg, dryRun) then None else PostError(post(i));
      if err.Some? then Warnings(announced, [], err)
      else
        var rest := WarningsFrom(sorted, cfg, dryRun, post, i + 1);
        var wait := if i + 1 < |sorted| then [sorted[i] - sorted[i + 1]] else [];
        Warnings(announced + rest.announced, wait + rest.waits, rest.err)
  }

  /** `SendRestartWarnings`: nothing for no intervals; otherwise the countdown over the intervals, largest first. */
  function RestartWarnings(cfg: NotificationConfig, dryRun: bool, post: nat -> PostOutcome): Warnings {
    if cfg.warningIntervals == [] then Warnings([], [], None)
    else WarningsFrom(SortDescending(cfg.warningIntervals, Identity), cfg, dryRun, post, 0)
  }

  /** Posting the warning for `minutes`: the embed is made unless muted, and the error is that of the post. */
  method PostWarning(cfg: NotificationConfig, dryRun: bool, minutes: int, post: PostOutcome) returns (made: bool, err: Option<Failure>)
    ensures made <==> !Muted(cfg, dryRun)
    ensures err == (if Muted(cfg, dryRun) then None else PostError(post))
  {
    var s := SendDiscord(cfg, dryRun, WarningTitle, WarningText(cfg.warningMessage, minutes), Orange, post);
    WarningPost(cfg, dryRun, minutes, post);
    made, err := s.posted.Some?, s.err;
  }

  /** The wait after posting the warning at `i`: the gap to the next interval, none after the last. */
  function Wait(sorted: seq<int>, i: nat): seq<int>
    requires i < |sorted|
  {
    if i + 1 < |sorted| then [sorted[i] - sorted[i + 1]] else []
  }

  /** One step of the countdown, unfolded field by field: the post at `i`, then either the error or the wait and the rest. */
  lemma CountdownStep(sorted: seq<int>, cfg: NotificationConfig, dryRun: bool, post: nat -> PostOutcome, i: nat)
    requires i < |sorted|
    ensures var w := WarningsFrom(sorted, cfg, dryRun, post, i);
      var rest := WarningsFrom(sorted, cfg, dryRun, post, i + 1);
      var posted := if Muted(cfg, dryRun) then [] else [sorted[i]];
      var err := if Muted(cfg, dryRun) then None else PostError(post(i));
      (err.Some? ==> w.announced == posted && w.waits == [] && w.err == err) &&
      (err.None? ==> w.announced == posted + rest.announced && w.waits == Wait(sorted, i) + rest.waits && w.err == rest.err)
  {
  }

  /** The copy of the configured intervals, sorted in place, largest first. */
  method SortedIntervals(configured: seq<int>) returns (intervals: array<int>)
    ensures fresh(intervals)
    ensures intervals[..] == SortDescending(configured, Identity)
  {
    intervals := new int[|configured|](k requires 0 <= k < |configured| => configured[k]);
    assert intervals[..] == configured;
    SortInPlaceDescending(intervals, Identity);
    DescendingUnique(intervals[..], SortDescending(configured, Identity));
  }

  /** The loop of `SendRestartWarnings` over the sorted intervals: post each warning, then wait for the gap to the next. */
  method RunCountdown(intervals: array<int>, cfg: NotificationConfig, dryRun: bool, post: nat -> PostOutcome)
    returns (announced: seq<int>, waits: seq<int>, err: Option<Failure>)
    ensures Warnings(announced, waits, err) == WarningsFrom(intervals[..], cfg, dryRun, post, 0)
  {
    announced, waits, err := [], [], None;
    ghost var sorted := intervals[..];
    ghost var whole := WarningsFrom(sorted, cfg, dryRun, post, 0);
    assert [] + whole.announced == whole.announced && [] + whole.waits == whole.waits;
    var i := 0;
    while i < intervals.Length
      invariant 0 <= i <= intervals.Length
      invariant whole.announced == announced + WarningsFrom(sorted, cfg, dryRun, post, i).announced
      invariant whole.waits == waits + WarningsFrom(sorted, cfg, dryRun, post, i).waits
      invariant whole.err == WarningsFrom(sorted, cfg, dryRun, post, i).err
    {
      var minutes := intervals[i];
      var made, failure := PostWarning(cfg, dryRun, minutes, post(i));
      var posted := if made then [minutes] else [];
      ghost var rest := WarningsFrom(sorted, cfg, dryRun, post, i + 1);
      CountdownStep(sorted, cfg, dryRun, post, i);
      if failure.Some? {
        assert waits + [] == waits;
        announced, err := announced + posted, failure;
        return;
      }
      ConcatAssoc(announced, posted, rest.announced);
      announced := announced + posted;
      var wait := [];
      if i < intervals.Length - 1 {
        var next := intervals[i + 1];
        wait := [minutes - next];
      }
      assert wait == Wait(sorted, i);
      ConcatAssoc(waits, wait, rest.waits);
      waits := waits + wait;
      i := i + 1;
    }
  }

  /** `SendRestartWarnings`: nothing for no intervals; otherwise copy and sort them, then run the countdown. */
  method SendRestartWarnings(cfg: NotificationConfig, dryRun: bool, post: nat -> PostOutcome)
    returns (announced: seq<int>, waits: seq<int>, err: Option<Failure>)
    ensures Warnings(announced, waits, err) == RestartWarnings(cfg, dryRun, post)
  {
    if |cfg.warningIntervals| == 0 {
      return [], [], None;
    }
    var intervals := SortedIntervals(cfg.warningIntervals);
    announced, waits, err := RunCountdown(intervals, cfg, dryRun, post);
  }

  lemma ConcatAssoc<T>(a: seq<T>, b: seq<T>, c: seq<T>)
    ensures a + (b + c) == (a + b) + c
  {
  }

  function Sum(xs: seq<int>): int {
    if xs == [] then 0 else xs[0] + Sum(xs[1..])
  }

  /** The differences between consecutive intervals. */
  function Gaps(s: seq<int>): (r: seq<int>)
    ensures |r| == if |s| < 2 then 0 else |s| - 1
  {
    if |s| < 2 then [] else [s[0] - s[1]] + Gaps(s[1..])
  }

  lemma GapsStep(s: seq<int>, i: nat)
    requires i + 1 < |s|
    ensures Gaps(s[i..]) == Wait(s, i) + Gaps(s[i + 1..])
  {
    assert s[i..][1..] == s[i + 1..];
  }

  /** On intervals sorted largest first no gap is negative, and the gaps add up to the largest minus the smallest. */
  lemma {:induction false} GapsOfDescending(s: seq<int>)
    requires Descending(s, Identity) && s != []
    ensures forall k :: 0 <= k < |Gaps(s)| ==> Gaps(s)[k] >= 0
    ensures Sum(Gaps(s)) == s[0] - s[|s| - 1]
  {
    if |s| >= 2 {
      assert Identity(s[0]) >= Identity(s[1]);
      assert Descending(s[1..], Identity) by {
        forall p, q | 0 <= p < q < |s[1..]| ensures Identity(s[1..][p]) >= Identity(s[1..][q]) {
          assert s[1..][p] == s[p + 1] && s[1..][q] == s[q + 1];
        }
      }
      GapsOfDescending(s[1..]);
      var g := Gaps(s);
      assert g == [s[0] - s[1]] + Gaps(s[1..]);
      assert g[1..] == Gaps(s[1..]);
    }
  }

  /**
   * When every post is delivered the countdown runs to the end: it waits for
   * each gap between consecutive intervals, and announces every interval in
   * order, unless posting is muted, when it announces none.
   */
  lemma {:induction false} Countdown(sorted: seq<int>, cfg: NotificationConfig, dryRun: bool, post: nat -> PostOutcome, i: nat)
    requires i < |sorted|
    requires forall k :: i <= k < |sorted| ==> Delivered(post(k))
    ensures var w := WarningsFrom(sorted, cfg, dryRun, post, i);
      w.err.None? && w.waits == Gaps(sorted[i..]) &&
      w.announced == (if Muted(cfg, dryRun) then [] else sorted[i..])
    decreases |sorted| - i
  {
    assert Delivered(post(i));
    assert PostError(post(i)).None?;
    CountdownStep(sorted, cfg, dryRun, post, i);
    var rest := WarningsFrom(sorted, cfg, dryRun, post, i + 1);
    if i + 1 < |sorted| {
      Countdown(sorted, cfg, dryRun, post, i + 1);
      GapsStep(sorted, i);
      assert sorted[i..] == [sorted[i]] + sorted[i + 1..];
    } else {
      assert rest == Warnings([], [], None);
      assert Gaps(sorted[i..]) == [] == Wait(sorted, i);
      assert sorted[i..] == [sorted[i]];
    }
  }

  /**
   * The countdown over the configured intervals, every post delivered: no
   * wait is negative, the waits add up to the largest minus the smallest
   * interval, and every interval is announced once, largest first.
   */
  lemma RestartWarningsTotalWait(cfg: NotificationConfig, dryRun: bool, post: nat -> PostOutcome)
    requires cfg.warningIntervals != []
    requires forall k :: Delivered(post(k))
    ensures var sorted := SortDescending(cfg.warningIntervals, Identity);
      var w := RestartWarnings(cfg, dryRun, post);
      w.err.None? && |w.waits| == |cfg.warningIntervals| - 1 &&
      (forall k :: 0 <= k < |w.waits| ==> w.waits[k] >= 0) &&
      Sum(w.waits) == sorted[0] - sorted[|sorted| - 1] &&
      (forall x :: x in cfg.warningIntervals ==> sorted[|sorted| - 1] <= x <= sorted[0]) &&
      (Muted(cfg, dryRun) ==> w.announced == []) &&
      (!Muted(cfg, dryRun) ==> multiset(w.announced) == multiset(cfg.warningIntervals) && Descending(w.announced, Identity))
  {
    var sorted := SortDescending(cfg.warningIntervals, Identity);
    SortedLength(cfg.warningIntervals);
    Countdown(sorted, cfg, dryRun, post, 0);
    assert sorted[0..] == sorted;
    GapsOfDescending(sorted);
    SortedBounds(cfg.warningIntervals);
  }

  lemma SortedLength(xs: seq<int>)
    ensures |SortDescending(xs, Identity)| == |xs|
  {
    var sorted := SortDescending(xs, Identity);
    assert |sorted| == |multiset(sorted)| == |multiset(xs)| == |xs|;
  }

  /** The first and last of the sorted intervals bound every configured interval. */
  lemma SortedBounds(xs: seq<int>)
    requires xs != []
    ensures var sorted := SortDescending(xs, Identity);
      |sorted| == |xs| &&
      forall x :: x in xs ==> sorted[|sorted| - 1] <= x <= sorted[0]
  {
    var sorted := SortDescending(xs, Identity);
    SortedLength(xs);
    forall x | x in xs ensures sorted[|sorted| - 1] <= x <= sorted[0] {
      assert x in multiset(xs);
      assert x in multiset(sorted);
      var k :| 0 <= k < |sorted| && sorted[k] == x;
      assert Identity(sorted[0]) >= Identity(sorted[k]) || k == 0;
      assert Identity(sorted[k]) >= Identity(sorted[|sorted| - 1]) || k == |sorted| - 1;
    }
  }

  /** A failed post ends the countdown: the intervals up to it were announced, and nothing after it is posted or waited for. */
  lemma {:induction false} FailedPostStops(sorted: seq<int>, cfg: NotificationConfig, dryRun: bool, post: nat -> PostOutcome, i: nat, f: nat)
    requires i <= f < |sorted|
    requires !Muted(cfg, dryRun)
    requires forall k :: i <= k < f ==> Delivered(post(k))
    requires !Delivered(post(f))
    ensures var w := WarningsFrom(sorted, cfg, dryRun, post, i);
      w.err == PostError(post(f)) && w.announced == sorted[i..f + 1] && |w.waits| == f - i
    decreases f - i
  {
    if i < f {
      FailedPostStops(sorted, cfg, dryRun, post, i + 1, f);
      assert sorted[i..f + 1] == [sorted[i]] + sorted[i + 1..f + 1];
    } else {
      assert sorted[i..f + 1] == [sorted[i]];
    }
  }

  // ---------------------------------------------------------- health checks

  /** `checkWebhook`. */
  function CheckWebhook(cfg: NotificationConfig): (c: Domain.HealthCheck)
    ensures c.name == "Discord webhook"
    ensures c.status == Domain.StatusWarn <==> cfg.discordWebhook == ""
    ensures c.status == Domain.StatusError <==> cfg.discordWebhook != "" && !HasPrefix(cfg.discordWebhook, WebhookPrefix)
    ensures c.status == Domain.StatusOK <==> HasPrefix(cfg.discordWebhook, WebhookPrefix)
  {
    if cfg.discordWebhook == "" then Domain.HealthCheck("Discord webhook", Domain.StatusWarn, "Not configured")
    else if !HasPrefix(cfg.discordWebhook, WebhookPrefix) then
      Domain.HealthCheck("Discord webhook", Domain.StatusError, "Invalid URL format")
    else Domain.HealthCheck("Discord webhook", Domain.StatusOK, "Configured")
  }

  /** `checkSettings`. */
  function CheckSettings(cfg: NotificationConfig): (c: Domain.HealthCheck)
    ensures c.name == "Notification settings"
    ensures c.status == Domain.StatusWarn <==> !cfg.errorNotifications && !cfg.successNotifications
    ensures c.status != Domain.StatusError
  {
    if !cfg.errorNotifications && !cfg.successNotifications then
      Domain.HealthCheck("Notification settings", Domain.StatusWarn, "All disabled")
    else Domain.HealthCheck("Notification settings", Domain.StatusOK, "Configured")
  }

  /** `HealthCheck`: the webhook check, then the settings check. */
  function HealthCheck(cfg: NotificationConfig): (r: seq<Domain.HealthCheck>)
    ensures |r| == 2 && r[0].name == "Discord webhook" && r[1].name == "Notification settings"
  {
    [CheckWebhook(cfg), CheckSettings(cfg)]
  }
}
