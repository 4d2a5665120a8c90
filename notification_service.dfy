/**
 * Notifications of the older Go service layer
 * (internal/services/notification_service.go): the same gating, posting and
 * countdown as the newer layer, with wrapped error texts, waits clamped at
 * zero, and string statuses in the health checks.
 *
 * The webhook's answer to the k-th post is `post(k)`; waits are recorded in
 * minutes. Cancellation of the context is not modelled.
 */
module NotificationService {
  import opened Results
  import opened Text
  import opened Discord
  import opened Ordering
  import opened CraftopsConfig
  import N = Notification
  import ModService
  import Domain

  /** The error `sendDiscordNotification` returns. */
  datatype Failure = CreateFailed(cause: string) | SendFailed(cause: string) | BadStatus(status: int)

  /** The error text, with the context each `fmt.Errorf` adds. */
  function FailureText(f: Failure): (r: string)
    ensures f.CreateFailed? ==> HasPrefix(r, "failed to create Discord request: ")
    ensures f.SendFailed? ==> HasPrefix(r, "failed to send Discord notification: ")
    ensures f.BadStatus? ==> HasPrefix(r, "discord API returned status ")
  {
    match f
    case CreateFailed(e) => "failed to create Discord request: " + e
    case SendFailed(e) => "failed to send Discord notification: " + e
    case BadStatus(s) => "discord API returned status " + IntToString(s)
  }

  /** The error of a post that was made. */
  function PostError(post: N.PostOutcome): (r: Option<Failure>)
    ensures r.None? <==> N.Delivered(post)
    ensures post.Answered? && r.Some? ==> r == Some(BadStatus(post.status))
    ensures post.TransportError? ==> r == Some(SendFailed(post.err))
    ensures post.RequestError? ==> r == Some(CreateFailed(post.err))
  {
    match post
    case RequestError(e) => Some(CreateFailed(e))
    case TransportError(e) => Some(SendFailed(e))
    case Answered(status) => if Accepted(status) then None else Some(BadStatus(status))
  }

  /** The embed that was posted, if a post was made, and the error returned. */
  datatype Sending = Sending(posted: Option<Embed>, err: Option<Failure>)

  /** `sendDiscordNotification`: no post without a webhook or in dry-run mode; otherwise the capped message. */
  function SendDiscordNotification(cfg: NotificationConfig, dryRun: bool, title: string, message: string, color: int, post: N.PostOutcome): (r: Sending)
    ensures r.posted.None? <==> N.Muted(cfg, dryRun)
    ensures r.posted.None? ==> r.err.None?
    ensures r.posted.Some? ==> r.posted.value == Embed(title, Truncate(message), color)
    ensures r.posted.Some? ==> r.err == PostError(post)
  {
    if cfg.discordWebhook == "" then Sending(None, None)
    else if dryRun then Sending(None, None)
    else Sending(Some(MakeEmbed(title, message, color)), PostError(post))
  }

  /** `SendSuccessNotification`: a green "Success" post, only when success notifications are on. */
  function SendSuccessNotification(cfg: NotificationConfig, dryRun: bool, message: string, post: N.PostOutcome): (r: Sending)
    ensures !cfg.successNotifications ==> r == Sending(None, None)
    ensures cfg.successNotifications ==> r == SendDiscordNotification(cfg, dryRun, "Success", message, Green, post)
  {
    if !cfg.successNotifications then Sending(None, None)
    else SendDiscordNotification(cfg, dryRun, "Success", message, Green, post)
  }

  /** `SendErrorNotification`: a red "Error" post, only when error notifications are on. */
  function SendErrorNotification(cfg: NotificationConfig, dryRun: bool, message: string, post: N.PostOutcome): (r: Sending)
    ensures !cfg.errorNotifications ==> r == Sending(None, None)
    ensures cfg.errorNotifications ==> r == SendDiscordNotification(cfg, dryRun, "Error", message, Red, post)
  {
    if !cfg.errorNotifications then Sending(None, None)
    else SendDiscordNotification(cfg, dryRun, "Error", message, Red, post)
  }

  /** Both generations post the same embed for the same message, and fail on the same answers. */
  lemma SendAgreesWithNewer(cfg: NotificationConfig, dryRun: bool, title: string, message: string, color: int, post: N.PostOutcome)
    ensures var older := SendDiscordNotification(cfg, dryRun, title, message, color, post);
      var newer := N.SendDiscord(cfg, dryRun, title, message, color, post);
      older.posted == newer.posted && (older.err.None? <==> newer.err.None?)
  {
  }

  // ------------------------------------------------------ restart warnings

  /** `diff` after its clamp: never negative. */
  function Clamp(diff: int): (r: nat)
    ensures r >= diff
    ensures diff >= 0 ==> r == diff
    ensures diff < 0 ==> r == 0
  {
    if diff < 0 then 0 else diff
  }

  /** A countdown run: the intervals whose warning was posted, the waits in minutes, and the error, if any. */
  datatype Warnings = Warnings(announced: seq<int>, waits: seq<int>, err: Option<Failure>)

  /** The countdown from position `i` of the sorted intervals on. */
  function WarningsFrom(sorted: seq<int>, cfg: NotificationConfig, dryRun: bool, post: nat -> N.PostOutcome, i: nat): Warnings
    decreases |sorted| - i
  {
    if i >= |sorted| then Warnings([], [], None)
    else
      var announced := if N.Muted(cfg, dryRun) then [] else [sorted[i]];
      var err := if N.Muted(cfg, dryRun) then None else PostError(post(i));
      if err.Some? then Warnings(announced, [], err)
      else
        var rest := WarningsFrom(sorted, cfg, dryRun, post, i + 1);
        var wait := if i + 1 < |sorted| then [Clamp(sorted[i] - sorted[i + 1]) as int] else [];
        Warnings(announced + rest.announced, wait + rest.waits, rest.err)
  }

  /** `SendRestartWarnings`: nothing for no intervals; otherwise the countdown over the intervals, largest first. */
  function RestartWarnings(cfg: NotificationConfig, dryRun: bool, post: nat -> N.PostOutcome): Warnings {
    if cfg.warningIntervals == [] then Warnings([], [], None)
    else WarningsFrom(SortDescending(cfg.warningIntervals, Identity), cfg, dryRun, post, 0)
  }

  /** Posting the warning for `minutes`: the embed is made unless muted, and the error is that of the post. */
  method PostWarning(cfg: NotificationConfig, dryRun: bool, minutes: int, post: N.PostOutcome) returns (made: bool, err: Option<Failure>)
    ensures made <==> !N.Muted(cfg, dryRun)
    ensures err == (if N.Muted(cfg, dryRun) then None else PostError(post))
  {
    var s := SendDiscordNotification(cfg, dryRun, N.WarningTitle, N.WarningText(cfg.warningMessage, minutes), Orange, post);
    made, err := s.posted.Some?, s.err;
  }

  /** One step of the countdown, unfolded: the post at `i`, then either the error or the clamped wait and the rest. */
  lemma CountdownStep(sorted: seq<int>, cfg: NotificationConfig, dryRun: bool, post: nat -> N.PostOutcome, i: nat)
    requires i < |sorted|
    ensures var w := WarningsFrom(sorted, cfg, dryRun, post, i);
      var rest := WarningsFrom(sorted, cfg, dryRun, post, i + 1);
      var posted := if N.Muted(cfg, dryRun) then [] else [sorted[i]];
      var err := if N.Muted(cfg, dryRun) then None else PostError(post(i));
      (err.Some? ==> w == Warnings(posted, [], err)) &&
      (err.None? && i + 1 < |sorted| ==>
        w == Warnings(posted + rest.announced, [Clamp(sorted[i] - sorted[i + 1]) as int] + rest.waits, rest.err)) &&
      (err.None? && i + 1 == |sorted| ==> w == Warnings(posted, [], None))
  {
    if i + 1 == |sorted| {
      var rest := WarningsFrom(sorted, cfg, dryRun, post, i + 1);
      var posted := if N.Muted(cfg, dryRun) then [] else [sorted[i]];
      assert posted + rest.announced == posted;
    }
  }

  /** The loop of `SendRestartWarnings`: post each warning, then wait for the clamped gap to the next. */
  method RunCountdown(intervals: array<int>, cfg: NotificationConfig, dryRun: bool, post: nat -> N.PostOutcome)
    returns (announced: seq<int>, waits: seq<int>, err: Option<Failure>)
    ensures Warnings(announced, waits, err) == WarningsFrom(intervals[..], cfg, dryRun, post, 0)
  {
    announced, waits, err := [], [], None;
    ghost var sorted := intervals[..];
    ghost var whole := WarningsFrom(sorted, cfg, dryRun, post, 0);
    assert [] + whole.announced == whole.announced && [] + whole.waits == whole.waits;
    var i := 0;
    while i < intervals.Length
      invariant 0 <= i <= intervals.Length
      invariant whole.announced == announced + WarningsFrom(sorted, cfg, dryRun, post, i).announced
      invariant whole.waits == waits + WarningsFrom(sorted, cfg, dryRun, post, i).waits
      invariant whole.err == WarningsFrom(sorted, cfg, dryRun, post, i).err
    {
      var minutes := intervals[i];
      var made, failure := PostWarning(cfg, dryRun, minutes, post(i));
      var posted := if made then [minutes] else [];
      ghost var rest := WarningsFrom(sorted, cfg, dryRun, post, i + 1);
      CountdownStep(sorted, cfg, dryRun, post, i);
      if failure.Some? {
        assert waits + [] == waits;
        announced, err := announced + posted, failure;
        return;
      }
      N.ConcatAssoc(announced, posted, rest.announced);
      announced := announced + posted;
      if i < intervals.Length - 1 {
        var next := intervals[i + 1];
        var diff := minutes - next;
        if diff < 0 {
          diff := 0;
        }
        N.ConcatAssoc(waits, [diff], rest.waits);
        waits := waits + [diff];
      }
      i := i + 1;
    }
  }

  /** `SendRestartWarnings`: nothing for no intervals; otherwise copy and sort them, then run the countdown. */
  method SendRestartWarnings(cfg: NotificationConfig, dryRun: bool, post: nat -> N.PostOutcome)
    returns (announced: seq<int>, waits: seq<int>, err: Option<Failure>)
    ensures Warnings(announced, waits, err) == RestartWarnings(cfg, dryRun, post)
  {
    if |cfg.warningIntervals| == 0 {
      return [], [], None;
    }
    var intervals := N.SortedIntervals(cfg.warningIntervals);
    announced, waits, err := RunCountdown(intervals, cfg, dryRun, post);
  }

  /**
   * On intervals sorted largest first the clamp never fires: this countdown
   * announces, waits and stops exactly as the newer layer's does.
   */
  lemma {:induction false} ClampNeverFires(sorted: seq<int>, cfg: NotificationConfig, dryRun: bool, post: nat -> N.PostOutcome, i: nat)
    requires Descending(sorted, Identity) && i <= |sorted|
    ensures var older := WarningsFrom(sorted, cfg, dryRun, post, i);
      var newer := N.WarningsFrom(sorted, cfg, dryRun, post, i);
      older.announced == newer.announced && older.waits == newer.waits && (older.err.None? <==> newer.err.None?)
    decreases |sorted| - i
  {
    if i < |sorted| {
      CountdownStep(sorted, cfg, dryRun, post, i);
      N.CountdownStep(sorted, cfg, dryRun, post, i);
      if i + 1 < |sorted| {
        ClampNeverFires(sorted, cfg, dryRun, post, i + 1);
        assert Identity(sorted[i]) >= Identity(sorted[i + 1]);
      }
    }
  }

  /** Both layers run the same countdown over the configured intervals. */
  lemma RestartWarningsAgree(cfg: NotificationConfig, dryRun: bool, post: nat -> N.PostOutcome)
    ensures var older := RestartWarnings(cfg, dryRun, post);
      var newer := N.RestartWarnings(cfg, dryRun, post);
      older.announced == newer.announced && older.waits == newer.waits && (older.err.None? <==> newer.err.None?)
  {
    if cfg.warningIntervals != [] {
      ClampNeverFires(SortDescending(cfg.warningIntervals, Identity), cfg, dryRun, post, 0);
    }
  }

  // ---------------------------------------------------------- health checks

  /** `checkDiscordWebhook`. */
  function CheckDiscordWebhook(cfg: NotificationConfig): (c: ModService.HealthCheck)
    ensures c.name == "Discord webhook"
    ensures c.status == "WARN" <==> cfg.discordWebhook == ""
    ensures c.status == "ERROR" <==> cfg.discordWebhook != "" && !HasPrefix(cfg.discordWebhook, N.WebhookPrefix)
    ensures c.status == "OK" <==> HasPrefix(cfg.discordWebhook, N.WebhookPrefix)
  {
    if cfg.discordWebhook == "" then ModService.HealthCheck("Discord webhook", "WARN", "Not configured")
    else if !HasPrefix(cfg.discordWebhook, N.WebhookPrefix) then
      ModService.HealthCheck("Discord webhook", "ERROR", "Invalid webhook URL format")
    else ModService.HealthCheck("Discord webhook", "OK", "Configured")
  }

  /** `checkNotificationSettings`. */
  function CheckNotificationSettings(cfg: NotificationConfig): (c: ModService.HealthCheck)
    ensures c.name == "Notification settings"
    ensures c.status == "WARN" <==> !cfg.errorNotifications && !cfg.successNotifications
    ensures c.status == "OK" <==> cfg.errorNotifications || cfg.successNotifications
  {
    if !cfg.errorNotifications && !cfg.successNotifications then
      ModService.HealthCheck("Notification settings", "WARN", "All notifications disabled")
    else ModService.HealthCheck("Notification settings", "OK", "Configured")
  }

  /** `HealthCheck`: the webhook check, then the settings check, classified as the newer layer classifies them. */
  function HealthCheck(cfg: NotificationConfig): (r: seq<ModService.HealthCheck>)
    ensures |r| == 2 && r[0].name == "Discord webhook" && r[1].name == "Notification settings"
    ensures var newer := N.HealthCheck(cfg);
      forall k :: 0 <= k < 2 ==> r[k].status == Domain.StatusText(newer[k].status)
  {
    [CheckDiscordWebhook(cfg), CheckNotificationSettings(cfg)]
  }
}
