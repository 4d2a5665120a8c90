/**
 * The Discord webhook message every implementation builds: the 2000-character
 * cap on the description and the embed colours. Python counts code points,
 * Go counts bytes; a `string` stands for either (one char per byte in Go).
 */
module Discord {
  const MaxLength := 2000
  const Ellipsis := "..."

  const Green := 0x00FF00
  const Red := 0xFF0000
  const Orange := 0xFFA500

  /** A request to notify: what the code passes to `send_discord_notification`. */
  datatype Notice = Notice(title: string, message: string, isError: bool)

  /** The embed posted to the webhook (the timestamp and footer are left out). */
  datatype Embed = Embed(title: string, description: string, color: int)

  /** `message[:1997] + "..."` when the message is longer than 2000. */
  function Truncate(message: string): (r: string)
    ensures |r| <= MaxLength
    ensures |message| <= MaxLength ==> r == message
    ensures |message| > MaxLength ==>
      |r| == MaxLength && r[..MaxLength - 3] == message[..MaxLength - 3] && r[MaxLength - 3..] == Ellipsis
  {
    if |message| > MaxLength then message[..MaxLength - 3] + Ellipsis else message
  }

  /** Truncating twice is truncating once: a capped description is never cut again. */
  lemma TruncateIdempotent(message: string)
    ensures Truncate(Truncate(message)) == Truncate(message)
  {
  }

  /** The Python colour choice: red for errors, green otherwise. */
  function Colour(isError: bool): (c: int)
    ensures c == Red <==> isError
    ensures c == Green <==> !isError
  {
    if isError then Red else Green
  }

  /** The embed for a message: the title, the capped description and the colour. */
  function MakeEmbed(title: string, message: string, color: int): (e: Embed)
    ensures e.title == title && e.color == color
    ensures e.description == Truncate(message)
  {
    Embed(title, Truncate(message), color)
  }

  /** Discord accepts a webhook post with 200 or 204. */
  predicate Accepted(status: int) {
    status == 200 || status == 204
  }
}
