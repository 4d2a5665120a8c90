/**
 * minecraft_mod_manager/managers/notification.py: the Discord webhook post
 * and the countdown warnings sent to players before maintenance.
 *
 * The webhook's reply, the configuration entries and the server-message
 * channel are parameters; sleeping is recorded as the list of durations.
 */
module NotificationManager {
  import opened Results
  import opened Text
  import opened Discord

  // ------------------------------------------------ send_discord_notification

  /** What `requests.post` to the webhook produced. */
  datatype PostResult = Status(code: int) | TimedOut | RequestFailed(reason: string)

  /** The post that was made (if any) and the error line that was logged (if any); nothing is raised. */
  datatype Delivery = NoWebhook | Posted(embed: Embed, logged: Option<string>)

  function PostError(result: PostResult): (r: Option<string>)
    ensures r.None? <==> result.Status? && Accepted(result.code)
  {
    match result
    case TimedOut => Some("Discord notification timed out")
    case RequestFailed(reason) => Some("Discord API request failed: " + reason)
    case Status(code) =>
      if Accepted(code) then None
      else Some("Failed to send Discord notification: Discord API returned status " + IntToString(code))
  }

  /**
   * `send_discord_notification`: nothing without a webhook; otherwise one
   * embed with the capped message, red for errors and green otherwise, and
   * any failure logged rather than raised.
   */
  function SendDiscordNotification(webhook: string, title: string, message: string, isError: bool, result: PostResult): (r: Delivery)
    ensures r.NoWebhook? <==> webhook == ""
    ensures r.Posted? ==> r.embed.title == title && r.embed.description == Truncate(message)
    ensures r.Posted? ==> (r.embed.color == Red <==> isError)
    ensures r.Posted? ==> (r.logged.None? <==> result.Status? && Accepted(result.code))
  {
    if webhook == "" then NoWebhook
    else Posted(MakeEmbed(title, message, Colour(isError)), PostError(result))
  }

  // ---------------------------------------------------------- warn_players

  const SleepAfterMinutes: nat := 60
  const SleepAfterSeconds: nat := 5
  const FinalWarning := "§c[WARNING] Starting maintenance now!"

  /**
   * A value read from one entry of `maintenance.warning_intervals`. A float
   * is its Python text (`str(x)`) and whether `x <= 0` is false, which holds
   * for a positive number and for nan.
   */
  datatype Value = Number(n: int) | Boolean(b: bool) | Float(text: string, positive: bool) | Str(s: string) | OtherValue(typeName: string)

  /** `isinstance(t, (int, float)) and not t <= 0`: a bool is an int, so True passes and False does not. */
  predicate PositiveTime(t: Value) {
    match t
    case Number(n) => n > 0
    case Boolean(b) => b
    case Float(_, positive) => positive
    case _ => false
  }

  /** The text an f-string writes for a number. */
  function TimeText(t: Value): string {
    match t
    case Number(n) => IntToString(n)
    case Boolean(b) => if b then "True" else "False"
    case Float(text, _) => text
    case _ => ""
  }

  /** The Python type name in the AttributeError of `.lower()` on a non-string unit. */
  function TypeName(v: Value): string {
    match v
    case Number(_) => "int"
    case Boolean(_) => "bool"
    case Float(_, _) => "float"
    case Str(_) => "str"
    case OtherValue(t) => t
  }

  /** An entry that is announced: both keys, a positive number of a unit that lower-cases to "minutes" or "seconds". */
  predicate Valid(entry: map<string, Value>) {
    "time" in entry && "unit" in entry && entry["unit"].Str? &&
    PositiveTime(entry["time"]) && Lower(entry["unit"].s) in {"minutes", "seconds"}
  }

  /** The in-game warning for a time and a (lower-cased) unit. */
  function Warning(time: Value, unit: string): string {
    "§c[WARNING] Server maintenance in " + TimeText(time) + " " + unit + "!"
  }

  /** The pause after a warning: 60 seconds after a warning in minutes, 5 otherwise. */
  function SleepFor(unit: string): nat {
    if unit == "minutes" then SleepAfterMinutes else SleepAfterSeconds
  }

  /** What the loop does with one entry. */
  datatype Action = Announce(message: string, sleep: nat) | Skip | Abort(reason: string)

  /**
   * One entry: a missing key aborts (KeyError, "time" first), a unit that is
   * not a string aborts (AttributeError), a bad time or unit is skipped, and
   * a valid entry is announced with its pause.
   */
  function Examine(entry: map<string, Value>): (a: Action)
    ensures a.Abort? <==> "time" !in entry || "unit" !in entry || !entry["unit"].Str?
    ensures a.Announce? <==> Valid(entry)
    ensures a.Announce? ==>
      a.message == Warning(entry["time"], Lower(entry["unit"].s)) && a.sleep == SleepFor(Lower(entry["unit"].s))
    ensures a.Abort? ==> a.reason == (if "time" !in entry then "'time'" else if "unit" !in entry then "'unit'"
      else "'" + TypeName(entry["unit"]) + "' object has no attribute 'lower'")
  {
    if "time" !in entry then Abort("'time'")
    else if "unit" !in entry then Abort("'unit'")
    else
      var time := entry["time"];
      match entry["unit"]
      case Str(u) =>
        var unit := Lower(u);
        if !PositiveTime(time) then Skip
        else if unit != "minutes" && unit != "seconds" then Skip
        else Announce("§c[WARNING] Server maintenance in " + TimeText(time) + " " + unit + "!",
          if unit == "minutes" then 60 else 5)
      case other => Abort("'" + TypeName(other) + "' object has no attribute 'lower'")
  }

  /** Messages sent and sleeps taken so far, and the error that stopped the loop, if any. */
  datatype Run = Run(sent: seq<string>, sleeps: seq<nat>, error: Option<string>)

  /** The loop over the entries, from the first; it stops at the first entry that aborts. */
  function Announcements(entries: seq<map<string, Value>>): (r: Run)
    ensures |r.sent| == |r.sleeps|
  {
    if entries == [] then Run([], [], None)
    else
      var before := Announcements(entries[..|entries| - 1]);
      if before.error.Some? then before
      else match Examine(entries[|entries| - 1])
        case Announce(m, z) => Run(before.sent + [m], before.sleeps + [z], None)
        case Skip => before
        case Abort(reason) => Run(before.sent, before.sleeps, Some(reason))
  }

  /** What `warn_players` does: nothing for no entries; otherwise the announcements, then the final warning unless an entry aborted. */
  function WarnPlayersRun(entries: seq<map<string, Value>>): Run {
    if entries == [] then Run([], [], None)
    else
      var run := Announcements(entries);
      if run.error.None? then Run(run.sent + [FinalWarning], run.sleeps, None)
      else Run(run.sent, run.sleeps, Some("Failed to send player warnings: " + run.error.value))
  }

  /** Once an entry aborted, later entries change nothing. */
  lemma {:induction false} AbortIsFinal(entries: seq<map<string, Value>>, i: nat)
    requires i <= |entries|
    requires Announcements(entries[..i]).error.Some?
    ensures Announcements(entries) == Announcements(entries[..i])
    decreases |entries| - i
  {
    if i < |entries| {
      var next := entries[..i + 1];
      assert next[..|next| - 1] == entries[..i];
      AbortIsFinal(entries, i + 1);
    } else {
      assert entries[..i] == entries;
    }
  }

  /** `warn_players` as the loop the source runs. */
  method WarnPlayers(entries: seq<map<string, Value>>) returns (sent: seq<string>, sleeps: seq<nat>, logged: Option<string>)
    ensures Run(sent, sleeps, logged) == WarnPlayersRun(entries)
  {
    sent, sleeps, logged := [], [], None;
    if entries == [] {
      return;
    }
    var i := 0;
    var error: Option<string> := None;
    while i < |entries| && error.None?
      invariant 0 <= i <= |entries|
      invariant Announcements(entries[..i]) == Run(sent, sleeps, error)
    {
      var prefix := entries[..i + 1];
      assert prefix[..|prefix| - 1] == entries[..i];
      match Examine(entries[i]) {
        case Announce(m, z) =>
          sent := sent + [m];
          sleeps := sleeps + [z];
        case Skip =>
        case Abort(reason) =>
          error := Some(reason);
      }
      i := i + 1;
    }
    if error.None? {
      assert entries[..i] == entries;
      sent := sent + [FinalWarning];
    } else {
      AbortIsFinal(entries, i);
      logged := Some("Failed to send player warnings: " + error.value);
    }
  }

  /**
   * The shape of a run: one sleep per announcement, each of 60 or 5 seconds;
   * the final warning closes the run exactly when it completed.
   */
  lemma {:induction false} AnnouncementsShape(entries: seq<map<string, Value>>)
    ensures var r := Announcements(entries);
      forall k :: 0 <= k < |r.sleeps| ==> r.sleeps[k] == SleepAfterMinutes || r.sleeps[k] == SleepAfterSeconds
    ensures Announcements(entries).error.Some? <==> exists k :: 0 <= k < |entries| && Examine(entries[k]).Abort?
  {
    if entries != [] {
      var init := entries[..|entries| - 1];
      AnnouncementsShape(init);
      assert forall k :: 0 <= k < |init| ==> init[k] == entries[k];
      var before := Announcements(init);
      if before.error.None? && Examine(entries[|entries| - 1]).Abort? {
        assert Announcements(entries).error.Some?;
      }
    }
  }

  lemma WarnPlayersShape(entries: seq<map<string, Value>>)
    requires entries != []
    ensures var r := WarnPlayersRun(entries);
      (r.error.None? <==> forall k :: 0 <= k < |entries| ==> !Examine(entries[k]).Abort?) &&
      (r.error.None? ==> |r.sent| == |r.sleeps| + 1 && r.sent[|r.sent| - 1] == FinalWarning) &&
      (r.error.Some? ==> |r.sent| == |r.sleeps| && HasPrefix(r.error.value, "Failed to send player warnings: ")) &&
      forall k :: 0 <= k < |r.sleeps| ==> r.sleeps[k] == SleepAfterMinutes || r.sleeps[k] == SleepAfterSeconds
  {
    AnnouncementsShape(entries);
  }

  /** The warnings of the valid entries, in order. */
  function ValidWarnings(entries: seq<map<string, Value>>): seq<string> {
    if entries == [] then []
    else
      var e := entries[|entries| - 1];
      ValidWarnings(entries[..|entries| - 1]) + (if Valid(e) then [Warning(e["time"], Lower(e["unit"].s))] else [])
  }

  /** The pauses after the warnings of the valid entries, in order. */
  function ValidSleeps(entries: seq<map<string, Value>>): seq<nat> {
    if entries == [] then []
    else
      var e := entries[|entries| - 1];
      ValidSleeps(entries[..|entries| - 1]) + (if Valid(e) then [SleepFor(Lower(e["unit"].s))] else [])
  }

  /**
   * When no entry aborts, the loop announces exactly the valid entries, in
   * order, each followed by its pause; invalid times and units are skipped.
   */
  lemma {:induction false} ValidEntriesAnnounced(entries: seq<map<string, Value>>)
    requires forall k :: 0 <= k < |entries| ==> !Examine(entries[k]).Abort?
    ensures Announcements(entries) == Run(ValidWarnings(entries), ValidSleeps(entries), None)
  {
    if entries != [] {
      var init := entries[..|entries| - 1];
      assert forall k :: 0 <= k < |init| ==> init[k] == entries[k];
      ValidEntriesAnnounced(init);
    }
  }
}
