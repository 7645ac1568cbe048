# Image-only channel moderation, modelled in Dafny

This project models the core of a small Discord bot that keeps "image-only"
channels free of text. When a message is created, the bot checks four things
in order. Is the author a bot? Is the channel one of the configured image-only
channels? Does the author hold the ManageMessages permission? Does any
attachment have an `image/` or `video/` content type? A message from a
non-bot author without the permission, in a listed channel, with no image or
video attachment, is rejected. The bot then deletes it, posts a warning
that mentions the author, and schedules that warning for deletion after a
timeout. The configuration comes from the environment: a comma-separated list
of channel ids, a port that defaults to 3000, and two constants, the warning
template and its 5000 ms lifetime.

Files:

- `wrappers.dfy`: the `Option` type, used for unset environment variables and
  missing content types.
- `jsstring.dfy`: the JavaScript string operations the code relies on.
  - Truthiness of a possibly undefined string.
  - `startsWith` and `indexOf`.
  - `replace` with a string pattern. This includes the `$` patterns that
    ECMAScript's GetSubstitution expands in the replacement text.
  - `split` on a one-character separator, and `join`.
- `config.dfy`: how the configuration object is built from the environment
  (config.js).
- `moderation.dfy`: the `messageCreate` handler (server.js). It has three
  parts:
  - the moderation rule, written as a pure function;
  - the media test behind `attachments.some`;
  - the enforcement step. This is a method that returns, in order, the
    platform calls the handler attempts.

Each platform call can succeed or fail, and the method takes that outcome as
an input. The method proves two things. A failed delete stops the handler
before the warning is sent. A failed send stops it before the warning's
deletion is scheduled.

Three behaviours of the code are worth noting:

- A failed `message.delete()` ends the `try` block, so no warning is sent
  (server.js:51-65).
- `DISCORD_TOKEN` is passed through unchecked (config.js:7).
- Any non-empty `PORT` string is used as it is, with no numeric check
  (config.js:14).

## Model

| member | source | states |
|---|---|---|
| JsString.Truthy | config.js:8 | The JavaScript truthiness tested by the `?:` at config.js:8, the `\|\|` at config.js:14 and the `fileType &&` at server.js:46: a string value is truthy iff it is defined and not `""`. |
| JsString.StartsWith | server.js:46 | `startsWith` is a case-sensitive prefix test: the prefix is no longer than the string, and the string is the prefix followed by the rest. |
| JsString.IndexOf | server.js:54 | `replace` searches for its pattern with `indexOf`. A found index holds the pattern and no earlier index at or after the start position does. When nothing is found, the pattern occurs at no position at or after the start. |
| JsString.Substitute | server.js:54 | The replacement text of `replace` after its `$` patterns are expanded. A replacement containing no `$` is inserted exactly as it is. |
| JsString.SubstitutePatterns | server.js:54 | The `$` patterns of a match without capture groups: `$$` gives one `$`, `$&` the matched text, `` $` `` the text before the match and `$'` the text after it. |
| JsString.Replace | server.js:54 | A template that does not contain the pattern comes back unchanged. |
| JsString.ReplaceAtFirst | server.js:54 | Only the leftmost occurrence is replaced, with the expanded replacement text. Everything before and after that occurrence is kept. |
| JsString.ReplaceFirstVerbatim | server.js:54 | With a `$`-free replacement, the result is the text before the first occurrence, then the replacement, then the text after the occurrence. The prefix and suffix are unchanged. |
| JsString.Split | config.js:9 | `split(',')` always yields at least one piece. |
| JsString.SplitCount | config.js:9 | A split yields one more piece than the string has commas. |
| JsString.SplitPiecesHaveNoSeparator | config.js:9 | No piece of a split contains the separator. |
| JsString.JoinSplit | config.js:9 | Round trip: joining the pieces with `","` reproduces the input exactly, so pieces are untrimmed and in their original order. |
| JsString.SplitJoin | config.js:9 | The converse round trip: a non-empty list of comma-free entries is recovered by splitting its join. |
| Config.ImageOnlyChannels | config.js:8-9 | An unset or empty `IMAGE_ONLY_CHANNELS` gives `[]`. Any other value gives (commas + 1) comma-free entries whose join is the original string. |
| Config.ImageOnlyChannelsNeverSingleEmpty | config.js:8-9 | Whatever the environment holds, the channel list is never `[""]`. |
| Config.Port | config.js:14 | The port is the `PORT` string exactly when it is set and non-empty, with no numeric check. Otherwise it is 3000. |
| Config.LoadConfig | config.js:4-22 | The token is passed through. The channels and the port are derived as above. The warning timeout is 5000 ms and the template is the fixed default. |
| Moderation.IsMedia | server.js:45-46 | The `some` callback: an attachment is media iff its content type is present and starts with `image/` or `video/`. The truthiness test excludes only an absent content type, since `""` starts with neither prefix. |
| Moderation.HasMedia | server.js:44-47 | `some` holds iff some attachment has a present content type starting with `image/` or `video/`. A missing content type never counts. |
| Moderation.Decide | server.js:30-50 | Bot authors, channels not exactly in the list, and authors with ManageMessages are always allowed, even with no attachments. Reject holds iff the author is not a bot, the channel is listed, the author lacks ManageMessages and no attachment is media. |
| Moderation.HasMediaConcat | server.js:44-47 | A concatenation of attachment lists has media iff either part has. |
| Moderation.HasMediaPermutation | server.js:44-47 | Any rearrangement of the attachments has media iff the original has. |
| Moderation.DecideMonotone | server.js:44-50 | Appending attachments never turns an allowed message into a rejected one. |
| Moderation.DecideIgnoresAttachmentOrder | server.js:44-50 | Reordering the attachments does not change the decision. |
| Moderation.WarningMessagePlaceholder | config.js:20 | The default template contains `{user}` exactly once, at its start. |
| Moderation.DefaultWarningText | server.js:54 | With the default template and a `$`-free mention, the warning is the mention followed by ", only images are allowed in this channel!". |
| Moderation.OnMessageCreate | server.js:28-66 | No calls at all iff the rule allows the message. On reject the calls come in this order: delete the original, send the warning into the message's channel, then schedule the warning's deletion after the configured timeout. A failed delete means no send and no schedule. A failed send means no schedule. |
| Moderation.DecideScenarios | server.js:36-50 | In a monitored channel, with an author lacking the permission, a message with only a PDF is rejected and one with a PNG is allowed. |
| Moderation.PdfInMonitoredChannel | server.js:28-66 | With `IMAGE_ONLY_CHANNELS="C1"` and both calls succeeding, a PDF-only message from such an author leads to exactly three calls: delete, the mention warning, and a 5000 ms scheduled deletion. |

## Left out

- The Express app, its `/` route and `app.listen` (server.js:6-8, 70-78): HTTP plumbing with no decision logic. The port value is modelled; what listening on it does is not.
- The discord.js client: its construction, intents, partials, the `ready` log and `client.login` (server.js:10-25, 81). This is gateway I/O inside a library.
- `dotenv` loading (config.js:2). Environment values are parameters (`Config.Environment`).
- Real `async`/`await` suspension and the real `setTimeout` timer. Also interleaving with other messages' handlers. The handler is modelled as the ordered list of calls it attempts. The outcomes the platform gives those calls are inputs.
- `console.error` logging of failures (server.js:59-64). A failure ends the call list and nothing else is recorded.
- Deleting the warning when its timer fires, and that deletion failing (server.js:59-61). The model records the scheduling. The failure is caught and logged, and no call follows it.
- How discord.js turns `message.author` into a mention string, and how `permissions.has` evaluates permission bits. Both are opaque inputs: the `authorMention` string and the `authorCanManageMessages` flag.
- A message without a guild member (`message.member` null, server.js:38). There, reading its permissions throws inside the async handler, which rejects and issues no calls. The model assumes the member is present.
- String indices: a Dafny `string` is a sequence of Unicode scalar values, a JavaScript string a sequence of UTF-16 code units. On text with characters outside the Basic Multilingual Plane (emoji, for instance), `JsString.IndexOf` returns a different index than `indexOf` would. The results of `Replace`, `Split` and `StartsWith` are the same either way.
- Moderation.DefaultWarningText: stated only for mentions without `$`. A `$` in the mention would be expanded by `replace`'s substitution patterns. Discord mentions have the form `<@id>` and contain no `$`, and `JsString.Substitute` models the general case.
