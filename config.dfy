/** The bot's configuration object, built once from the process environment:
    the Discord token, the list of image-only channel ids, the HTTP port and
    the two constants that shape the warning message. */
module Config {
  import opened Wrappers
  import opened JsString

  /** The environment variables the configuration reads; None is an unset
      variable. */
  datatype Environment = Environment(
    discordToken: Option<string>,
    imageOnlyChannels: Option<string>,
    port: Option<string>)

  /** `process.env.PORT || 3000` is either the raw environment string or the
      number 3000. */
  datatype PortSetting = PortFromEnv(raw: string) | PortNumber(number: nat)

  datatype DiscordConfig = DiscordConfig(token: Option<string>, imageOnlyChannels: seq<string>)
  datatype ServerConfig = ServerConfig(port: PortSetting)
  datatype BotConfig = BotConfig(warningMessageTimeout: nat, warningMessage: string)
  datatype Configuration = Configuration(discord: DiscordConfig, server: ServerConfig, bot: BotConfig)

  const DefaultPort: nat := 3000

  /** Milliseconds before a warning message is deleted. */
  const WarningMessageTimeout: nat := 5000

  const WarningMessage: string := "{user}, only images are allowed in this channel!"

  /** The image-only channel list: empty when the variable is unset or empty,
      otherwise the comma-separated entries, untrimmed, in their order. */
  function ImageOnlyChannels(v: Option<string>): (r: seq<string>)
    ensures !Truthy(v) ==> r == []
    ensures Truthy(v) ==> |r| == Count(v.value, ',') + 1
    ensures Truthy(v) ==> forall k :: 0 <= k < |r| ==> ',' !in r[k]
    ensures Truthy(v) ==> Join(r, ',') == v.value
  {
    if Truthy(v) then
      SplitCount(v.value, ',');
      SplitPiecesHaveNoSeparator(v.value, ',');
      JoinSplit(v.value, ',');
      Split(v.value, ',')
    else []
  }

  /** Whatever the environment holds, the list is never the one-entry list
      holding the empty string. */
  lemma ImageOnlyChannelsNeverSingleEmpty(v: Option<string>)
    ensures ImageOnlyChannels(v) != [""]
  {
  }

  /** The port: the environment string verbatim whenever it is set and
      non-empty (it is not checked to be numeric), otherwise 3000. */
  function Port(v: Option<string>): (r: PortSetting)
    ensures r.PortFromEnv? <==> Truthy(v)
    ensures r.PortFromEnv? ==> r.raw == v.value
    ensures r.PortNumber? ==> r.number == DefaultPort
  {
    if Truthy(v) then PortFromEnv(v.value) else PortNumber(DefaultPort)
  }

  /** The configuration object built from the environment. */
  function LoadConfig(env: Environment): (c: Configuration)
    ensures c.discord.token == env.discordToken
    ensures c.discord.imageOnlyChannels == ImageOnlyChannels(env.imageOnlyChannels)
    ensures c.server.port == Port(env.port)
    ensures c.bot.warningMessageTimeout == 5000
    ensures c.bot.warningMessage == WarningMessage
  {
    Configuration(
      DiscordConfig(env.discordToken, ImageOnlyChannels(env.imageOnlyChannels)),
      ServerConfig(Port(env.port)),
      BotConfig(WarningMessageTimeout, WarningMessage))
  }
}
