/** The `messageCreate` handler: the decision whether a message may stay in an
    image-only channel, and the platform calls issued when it may not. */
module Moderation {
  import opened Wrappers
  import opened JsString
  import opened Config

  /** An attachment, seen only through its content type (None when the
      platform reports none). */
  datatype Attachment = Attachment(contentType: Option<string>)

  /** The parts of an incoming message the handler looks at. The author's
      mention is the text the author object turns into when it is inserted
      in a string, and `authorCanManageMessages` is the answer of the
      ManageMessages permission check; both are supplied by the platform. */
  datatype Message = Message(
    authorIsBot: bool,
    authorMention: string,
    channelId: string,
    authorCanManageMessages: bool,
    attachments: seq<Attachment>)

  datatype Decision = Allow | Reject

  /** A call the handler issues to the chat platform. */
  datatype Action =
    | DeleteOriginal
    | SendWarning(channelId: string, text: string)
    | ScheduleWarningDeletion(delayMs: nat)

  /** The placeholder the warning template carries for the author. */
  const UserPlaceholder: string := "{user}"

  /** An attachment counts as media when its content type is present and
      begins with `image/` or `video/` (case-sensitive). */
  predicate IsMedia(a: Attachment): (r: bool)
    ensures r <==> (a.contentType.Some?
      && (StartsWith(a.contentType.value, "image/") || StartsWith(a.contentType.value, "video/")))
  {
    Truthy(a.contentType)
    && (StartsWith(a.contentType.value, "image/") || StartsWith(a.contentType.value, "video/"))
  }

  /** `attachments.some(...)`: scans the attachments in order. */
  function HasMedia(atts: seq<Attachment>): (r: bool)
    ensures r <==> exists k :: 0 <= k < |atts| && IsMedia(atts[k])
    decreases |atts|
  {
    if |atts| == 0 then false
    else if IsMedia(atts[0]) then true
    else
      var rest := HasMedia(atts[1..]);
      assert forall k :: 1 <= k < |atts| ==> atts[k] == atts[1..][k - 1];
      rest
  }

  /** The moderation rule, short-circuiting in the handler's order: bot
      authors, channels outside the list and authors allowed to manage
      messages are let through; otherwise a message without media is
      rejected. */
  function Decide(m: Message, channels: seq<string>): (d: Decision)
    ensures m.authorIsBot ==> d == Allow
    ensures m.channelId !in channels ==> d == Allow
    ensures m.authorCanManageMessages ==> d == Allow
    ensures d == Reject <==>
      && !m.authorIsBot
      && m.channelId in channels
      && !m.authorCanManageMessages
      && forall k :: 0 <= k < |m.attachments| ==> !IsMedia(m.attachments[k])
  {
    if m.authorIsBot then Allow
    else if m.channelId !in channels then Allow
    else if m.authorCanManageMessages then Allow
    else if HasMedia(m.attachments) then Allow
    else Reject
  }

  /** A concatenation of attachment lists has media when either half has. */
  lemma HasMediaConcat(a: seq<Attachment>, b: seq<Attachment>)
    ensures HasMedia(a + b) == (HasMedia(a) || HasMedia(b))
  {
    var ab := a + b;
    if HasMedia(a) {
      var k :| 0 <= k < |a| && IsMedia(a[k]);
      assert ab[k] == a[k];
    }
    if HasMedia(b) {
      var k :| 0 <= k < |b| && IsMedia(b[k]);
      assert ab[|a| + k] == b[k];
    }
    if HasMedia(ab) {
      var k :| 0 <= k < |ab| && IsMedia(ab[k]);
      if k < |a| {
        assert a[k] == ab[k];
      } else {
        assert b[k - |a|] == ab[k];
      }
    }
  }

  /** The order of the attachments does not matter: any rearrangement has
      media exactly when the original has. */
  lemma HasMediaPermutation(a: seq<Attachment>, b: seq<Attachment>)
    requires multiset(a) == multiset(b)
    ensures HasMedia(a) == HasMedia(b)
  {
    if HasMedia(a) {
      var k :| 0 <= k < |a| && IsMedia(a[k]);
      assert a[k] in multiset(b);
      var j :| 0 <= j < |b| && b[j] == a[k];
    }
    if HasMedia(b) {
      var k :| 0 <= k < |b| && IsMedia(b[k]);
      assert b[k] in multiset(a);
      var j :| 0 <= j < |a| && a[j] == b[k];
    }
  }

  /** Adding attachments never turns an allowed message into a rejected one. */
  lemma DecideMonotone(m: Message, extra: seq<Attachment>, channels: seq<string>)
    requires Decide(m, channels) == Allow
    ensures Decide(m.(attachments := m.attachments + extra), channels) == Allow
  {
    HasMediaConcat(m.attachments, extra);
  }

  /** Rearranging the attachments does not change the decision. */
  lemma DecideIgnoresAttachmentOrder(m: Message, atts: seq<Attachment>, channels: seq<string>)
    requires multiset(atts) == multiset(m.attachments)
    ensures Decide(m.(attachments := atts), channels) == Decide(m, channels)
  {
    HasMediaPermutation(atts, m.attachments);
  }

  // The facts about the default template are proved with its sentence split
  // in two literals, short enough for the verifier to inspect character by
  // character.

  /** The default template is the placeholder followed by a fixed sentence. */
  lemma WarningMessageShape()
    ensures WarningMessage == UserPlaceholder + (", only images " + "are allowed in this channel!")
  {
  }

  /** The placeholder's opening brace appears nowhere else in the template. */
  lemma PlaceholderFreeTail()
    ensures UserPlaceholder[0] !in UserPlaceholder[1..] + (", only images " + "are allowed in this channel!")
  {
  }

  /** The two pieces of the fixed sentence join into the sentence itself. */
  lemma TailPiecesJoin()
    ensures ", only images " + "are allowed in this channel!" == ", only images are allowed in this channel!"
  {
  }

  /** The default template holds the placeholder exactly once, at its start. */
  lemma WarningMessagePlaceholder()
    ensures FirstOccursAt(WarningMessage, UserPlaceholder, 0)
    ensures forall j :: j != 0 ==> !OccursAt(WarningMessage, UserPlaceholder, j)
  {
    PlaceholderFreeTail();
    OccursOnlyAtStart(UserPlaceholder, ", only images " + "are allowed in this channel!");
    WarningMessageShape();
  }

  /** The warning text with the sentence still in two pieces; a step kept
      apart from DefaultWarningText so that each proof stays small. */
  lemma LeadingPlaceholderReplaced(mention: string)
    requires '$' !in mention
    ensures Replace(WarningMessage, UserPlaceholder, mention)
      == mention + (", only images " + "are allowed in this channel!")
  {
    PlaceholderFreeTail();
    ReplaceLeading(UserPlaceholder, ", only images " + "are allowed in this channel!", mention);
    WarningMessageShape();
  }

  /** With the default template, the warning is the author's mention
      followed by the fixed sentence, for any mention free of `$`. */
  lemma DefaultWarningText(mention: string)
    requires '$' !in mention
    ensures Replace(WarningMessage, UserPlaceholder, mention)
      == mention + ", only images are allowed in this channel!"
  {
    LeadingPlaceholderReplaced(mention);
    TailPiecesJoin();
  }

  /** The handler: nothing when the rule allows the message; otherwise delete
      the original, then send the warning into the same channel, then
      schedule the warning's deletion after the configured timeout. A failing
      delete or send aborts the steps after it. The result lists the platform
      calls attempted, in order; `deleteSucceeds` and `sendSucceeds` are the
      outcomes the platform gives them. */
  method OnMessageCreate(cfg: Configuration, m: Message, deleteSucceeds: bool, sendSucceeds: bool)
    returns (actions: seq<Action>)
    ensures actions == [] <==> Decide(m, cfg.discord.imageOnlyChannels) == Allow
    ensures Decide(m, cfg.discord.imageOnlyChannels) == Reject ==>
      |actions| == (if !deleteSucceeds then 1 else if !sendSucceeds then 2 else 3)
    ensures |actions| >= 1 ==> actions[0] == DeleteOriginal
    ensures |actions| >= 2 ==>
      actions[1] == SendWarning(m.channelId, Replace(cfg.bot.warningMessage, UserPlaceholder, m.authorMention))
    ensures |actions| >= 3 ==> actions[2] == ScheduleWarningDeletion(cfg.bot.warningMessageTimeout)
  {
    actions := [];
    if Decide(m, cfg.discord.imageOnlyChannels) == Allow {
      return;
    }
    actions := actions + [DeleteOriginal];
    if !deleteSucceeds {
      return;
    }
    var text := Replace(cfg.bot.warningMessage, UserPlaceholder, m.authorMention);
    actions := actions + [SendWarning(m.channelId, text)];
    if !sendSucceeds {
      return;
    }
    actions := actions + [ScheduleWarningDeletion(cfg.bot.warningMessageTimeout)];
  }

  /** A message in a monitored channel from a member without the permission,
      carrying only a PDF, is rejected; the same message with a PNG is not. */
  lemma DecideScenarios(mention: string)
    ensures Decide(Message(false, mention, "C1", false, [Attachment(Some("application/pdf"))]), ["C1"]) == Reject
    ensures Decide(Message(false, mention, "C1", false, [Attachment(Some("image/png"))]), ["C1"]) == Allow
  {
    var pdf := "application/pdf";
    assert pdf[..6][0] == 'a';
    assert StartsWith("image/png", "image/");
  }

  /** A client of the handler: with IMAGE_ONLY_CHANNELS set to "C1", a
      member without the permission posting only a PDF there has the message
      deleted, is warned by mention, and the warning is scheduled for deletion
      after 5000 ms, when both platform calls succeed. */
  method PdfInMonitoredChannel(mention: string) returns (actions: seq<Action>)
    requires '$' !in mention
    ensures actions == [
      DeleteOriginal,
      SendWarning("C1", mention + ", only images are allowed in this channel!"),
      ScheduleWarningDeletion(5000)]
  {
    var cfg := LoadConfig(Environment(None, Some("C1"), None));
    var m := Message(false, mention, "C1", false, [Attachment(Some("application/pdf"))]);
    PdfScenarioFacts(cfg, m);
    actions := OnMessageCreate(cfg, m, true, true);
  }

  /** What the scenario above relies on, stated for the configuration and
      message it builds: the PDF-only message is rejected, the warning is the
      mention followed by the fixed sentence, and the timeout is 5000 ms. */
  lemma PdfScenarioFacts(cfg: Configuration, m: Message)
    requires cfg == LoadConfig(Environment(None, Some("C1"), None))
    requires m == Message(false, m.authorMention, "C1", false, [Attachment(Some("application/pdf"))])
    requires '$' !in m.authorMention
    ensures Decide(m, cfg.discord.imageOnlyChannels) == Reject
    ensures Replace(cfg.bot.warningMessage, UserPlaceholder, m.authorMention)
      == m.authorMention + ", only images are allowed in this channel!"
    ensures cfg.bot.warningMessageTimeout == 5000
  {
    SingleChannel();
    DecideScenarios(m.authorMention);
    DefaultWarningText(m.authorMention);
  }

  /** IMAGE_ONLY_CHANNELS set to "C1" lists exactly that one channel. */
  lemma SingleChannel()
    ensures ImageOnlyChannels(Some("C1")) == ["C1"]
  {
  }
}
