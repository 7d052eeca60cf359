/** The decisions taken while composing the bot's messages: the clamped
    minute counts, where a meeting takes place, whether a mail asks for a
    mention, and which chats may use the commands. The Russian wording and
    the MarkdownV2 layout are rendering and stay outside the model. */
module Messages {
  import opened Wrappers
  import opened Strings
  import opened Models
  import TextSearch
  import Config

  /** `max(0, int(seconds // 60))`: floor division, then clamped at zero. */
  function ClampedMinutes(seconds: int): (r: nat)
    ensures seconds < 0 ==> r == 0
    ensures seconds >= 0 ==> 60 * r <= seconds < 60 * (r + 1)
  {
    if seconds / 60 < 0 then 0 else seconds / 60
  }

  /** Whole minutes until the meeting starts; zero once it has begun. */
  function MinutesUntil(m: Meeting, nowUtc: int): (r: nat)
    ensures m.startUtc <= nowUtc ==> r == 0
    ensures m.startUtc >= nowUtc ==> 60 * r <= m.startUtc - nowUtc < 60 * (r + 1)
  {
    ClampedMinutes(m.startUtc - nowUtc)
  }

  /** Whole minutes the meeting lasts; zero when it ends before it starts. */
  function DurationMinutes(m: Meeting): (r: nat)
    ensures m.endUtc <= m.startUtc ==> r == 0
    ensures m.endUtc >= m.startUtc ==> 60 * r <= m.endUtc - m.startUtc < 60 * (r + 1)
  {
    ClampedMinutes(m.endUtc - m.startUtc)
  }

  /** The last line of a meeting notification. */
  datatype Venue = Link(url: string) | Place(name: string) | NoVenue

  /** A join link wins over a location; a location counts once stripped
      and non-empty. */
  function MeetingVenue(m: Meeting): (v: Venue)
    ensures v.Link? <==> m.joinUrl.Some? && m.joinUrl.value != ""
    ensures v.Link? ==> v.url == m.joinUrl.value
    ensures v.Place? ==> m.location.Some? && v.name == Strip(m.location.value) && v.name != ""
    ensures v.NoVenue? <==>
      ((m.joinUrl.None? || m.joinUrl.value == "") && (m.location.None? || Strip(m.location.value) == ""))
  {
    var location := Strip(if m.location.Some? then m.location.value else "");
    if m.joinUrl.Some? && m.joinUrl.value != "" then Link(m.joinUrl.value)
    else if location != "" then Place(location)
    else NoVenue
  }

  /** The text searched for keywords: subject, sender and preview, one per
      line, with the placeholders for an empty subject or sender. */
  function MailSearchText(mail: MailItem): string {
    (if mail.subject == "" then "(без темы)" else mail.subject) + "\n"
    + (if mail.sender == "" then "-" else mail.sender) + "\n"
    + mail.preview
  }

  /** How a mail notification calls for attention. */
  datatype Mention = NoMention | FlagOnly | FlagAndMention(text: string)

  /** A keyword hit flags the message; the mention text follows it when
      it is not blank. */
  function MailMention(mail: MailItem, keywords: seq<string>, mentionText: string): (r: Mention)
    ensures r.NoMention? <==> !TextSearch.ContainsKeyword(MailSearchText(mail), keywords)
    ensures r.FlagOnly? <==> TextSearch.ContainsKeyword(MailSearchText(mail), keywords) && Strip(mentionText) == ""
    ensures r.FlagAndMention? ==> r.text == Strip(mentionText) && r.text != ""
  {
    var mention := Strip(mentionText);
    if !TextSearch.ContainsKeyword(MailSearchText(mail), keywords) then NoMention
    else if mention == "" then FlagOnly
    else FlagAndMention(mention)
  }

  /** Without keywords no mail is ever flagged. */
  lemma NoKeywordsNoMention(mail: MailItem, mentionText: string)
    ensures MailMention(mail, [], mentionText) == NoMention
  {
  }

  /** A keyword found in the subject, in any letter case, flags the mail. */
  lemma SubjectKeywordFlags(mail: MailItem, keyword: string, mentionText: string)
    requires mail.subject != ""
    requires TextSearch.IsSubstring(Lower(keyword), Lower(mail.subject))
    ensures !MailMention(mail, [keyword], mentionText).NoMention?
  {
    var text := MailSearchText(mail);
    var i :| TextSearch.OccursAt(Lower(keyword), Lower(mail.subject), i);
    assert text == mail.subject + ("\n" + (if mail.sender == "" then "-" else mail.sender) + "\n" + mail.preview);
    assert Lower(text)[i..i + |Lower(keyword)|] == Lower(mail.subject)[i..i + |Lower(keyword)|];
    assert TextSearch.OccursAt(Lower(keyword), Lower(text), i);
  }

  /** `is_allowed`: membership in the configured chat list. */
  function IsAllowed(chatId: int, allowed: seq<int>): (r: bool)
    ensures r <==> exists k :: 0 <= k < |allowed| && allowed[k] == chatId
  {
    chatId in allowed
  }

  /** With the loaded settings, a chat may use the commands exactly when one
      of the configured list items reads as its id. */
  lemma AllowedIffConfigured(env: Config.Env, chatId: int)
    requires Config.LoadTelegram(env).Ok?
    ensures var items := Config.GetList(env, "ALLOWED_CHAT_IDS");
      IsAllowed(chatId, Config.LoadTelegram(env).value.chatIds) <==>
        exists k :: 0 <= k < |items| && ParseInt(items[k]) == Some(chatId)
  {
    var items := Config.GetList(env, "ALLOWED_CHAT_IDS");
    var ids := Config.LoadTelegram(env).value.chatIds;
    assert Config.ParsedAs(items, ids);
    if IsAllowed(chatId, ids) {
      var k :| 0 <= k < |ids| && ids[k] == chatId;
      assert ParseInt(items[k]) == Some(chatId);
    }
  }
}
