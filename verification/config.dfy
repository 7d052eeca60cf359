/** Loading the settings from the process environment, given here as a map
    from variable names to values. Reading the `.env` file into the
    environment happens before and is not part of the model. */
module Config {
  import opened Wrappers
  import opened Strings
  import Digest

  type Env = map<string, string>

  /** Why loading fails; every case is a `ValueError` in the program. */
  datatype ConfigError =
    | MissingVar(name: string)
    | NotAnInteger(text: string)
    | BadTimeFormat(name: string)
    | BadTimeValue(name: string)

  /** `os.getenv(name, default)`: a set but empty variable is returned as
      it is, not replaced by the default. */
  function GetEnv(env: Env, name: string, default: string): string {
    if name in env then env[name] else default
  }

  /** Set to a non-empty value. */
  predicate IsSet(env: Env, name: string) {
    name in env && env[name] != ""
  }

  /** `_require_env`. */
  function RequireEnv(env: Env, name: string): (r: Result<string, ConfigError>)
    ensures r.Ok? <==> IsSet(env, name)
    ensures r.Ok? ==> r.value == env[name] && r.value != ""
    ensures r.Err? ==> r.error == MissingVar(name)
  {
    if !IsSet(env, name) then Err(MissingVar(name)) else Ok(env[name])
  }

  /** Python's `int(text)`, failing as `ValueError` does. */
  function ToInt(text: string): (r: Result<int, ConfigError>)
    ensures r.Ok? <==> ParseInt(text).Some?
    ensures r.Ok? ==> r.value == ParseInt(text).value
    ensures r.Err? ==> r.error == NotAnInteger(text)
  {
    match ParseInt(text)
    case None => Err(NotAnInteger(text))
    case Some(n) => Ok(n)
  }

  /** `_get_int`: the default stands in for an unset or empty variable;
      without one the variable is required. */
  function GetInt(env: Env, name: string, default: Option<int>): (r: Result<int, ConfigError>)
    ensures !IsSet(env, name) ==> (r.Ok? <==> default.Some?)
    ensures !IsSet(env, name) && default.Some? ==> r == Ok(default.value)
    ensures !IsSet(env, name) && default.None? ==> r == Err(MissingVar(name))
    ensures IsSet(env, name) ==> r == ToInt(env[name])
  {
    if !IsSet(env, name) then
      (if default.None? then Err(MissingVar(name)) else Ok(default.value))
    else ToInt(env[name])
  }

  /** A number written out in decimal is read back. */
  lemma GetIntReadsDecimal(env: Env, name: string, n: int, default: Option<int>)
    requires name in env && env[name] == IntToDecimal(n)
    ensures GetInt(env, name, default) == Ok(n)
  {
    ParseIntOfDecimal(n);
    assert IsSet(env, name);
    assert ToInt(env[name]) == Ok(n);
  }

  /** The spellings `_get_bool` takes for true, after stripping and
      lower-casing. */
  predicate IsTrueWord(w: string) {
    w == "1" || w == "true" || w == "yes" || w == "on"
  }

  /** `_get_bool`: the default for an unset or empty variable; otherwise
      true exactly for the true spellings, in any letter case, and false for
      anything else. */
  function GetBool(env: Env, name: string, default: bool): (r: bool)
    ensures !IsSet(env, name) ==> r == default
    ensures IsSet(env, name) ==> (r <==> IsTrueWord(Lower(Strip(env[name]))))
  {
    if !IsSet(env, name) then default
    else IsTrueWord(Lower(Strip(env[name])))
  }

  /** The words `true` and `false`, as written, are read as such. */
  lemma GetBoolReadsWords(env: Env, name: string, b: bool, default: bool)
    requires name in env && env[name] == if b then "true" else "false"
    ensures GetBool(env, name, default) == b
  {
    var w := env[name];
    assert IsSet(env, name);
    assert IsStripped(w);
    StripOfStripped(w);
    LowerKeepsLowercase(w);
  }

  lemma LowerKeepsLowercase(s: string)
    requires forall k :: 0 <= k < |s| ==> 'a' <= s[k] <= 'z'
    ensures Lower(s) == s
  {
  }

  /** The stripped, non-empty items of a comma-separated text. */
  function NonEmptyItems(parts: seq<string>): (items: seq<string>)
    ensures forall k :: 0 <= k < |items| ==> items[k] != "" && IsStripped(items[k])
    ensures |items| <= |parts|
  {
    if |parts| == 0 then []
    else
      var item := Strip(parts[0]);
      var rest := NonEmptyItems(parts[1..]);
      if item == "" then rest
      else
        assert forall k :: 0 < k <= |rest| ==> ([item] + rest)[k] == rest[k - 1];
        [item] + rest
  }

  /** `_get_list`. */
  function GetList(env: Env, name: string): (items: seq<string>)
    ensures forall k :: 0 <= k < |items| ==> items[k] != "" && IsStripped(items[k])
    ensures !IsSet(env, name) ==> items == []
  {
    var value := GetEnv(env, name, "");
    if value == "" then [] else NonEmptyItems(Split(value, ','))
  }

  /** Every part, stripped, blank ones included. */
  ghost function StrippedParts(parts: seq<string>): seq<string> {
    if |parts| == 0 then [] else [Strip(parts[0])] + StrippedParts(parts[1..])
  }

  /** The non-blank texts of a list, in order. */
  ghost function DropBlank(texts: seq<string>): seq<string> {
    if |texts| == 0 then []
    else (if texts[0] == "" then [] else [texts[0]]) + DropBlank(texts[1..])
  }

  lemma {:induction false} DropBlankMembers(texts: seq<string>)
    ensures forall x :: x in DropBlank(texts) <==> x in texts && x != ""
  {
    if |texts| > 0 {
      DropBlankMembers(texts[1..]);
      assert texts == [texts[0]] + texts[1..];
    }
  }

  /** The items are the stripped parts with the blank ones dropped. */
  lemma {:induction false} NonEmptyItemsDropsBlank(parts: seq<string>)
    ensures NonEmptyItems(parts) == DropBlank(StrippedParts(parts))
  {
    if |parts| > 0 {
      var item := Strip(parts[0]);
      var tail := StrippedParts(parts[1..]);
      NonEmptyItemsDropsBlank(parts[1..]);
      DropBlankCons(item, tail);
    }
  }

  lemma DropBlankCons(text: string, texts: seq<string>)
    ensures DropBlank([text] + texts) == (if text == "" then [] else [text]) + DropBlank(texts)
  {
    assert ([text] + texts)[1..] == texts;
  }

  /** An item is kept exactly when some part strips to it and it is not
      blank. */
  lemma NonEmptyItemsMembers(parts: seq<string>)
    ensures forall x :: x in NonEmptyItems(parts) <==> x in StrippedParts(parts) && x != ""
  {
    NonEmptyItemsDropsBlank(parts);
    DropBlankMembers(StrippedParts(parts));
  }

  /** The items of consecutive stretches of parts come out one stretch after
      the other: the order of the parts is kept. */
  lemma {:induction false} NonEmptyItemsConcat(a: seq<string>, b: seq<string>)
    ensures NonEmptyItems(a + b) == NonEmptyItems(a) + NonEmptyItems(b)
    decreases |a|
  {
    if |a| == 0 {
      assert a + b == b;
    } else {
      assert (a + b)[0] == a[0] && (a + b)[1..] == a[1..] + b;
      NonEmptyItemsConcat(a[1..], b);
    }
  }

  /** A list written as comma-free parts joined by commas reads as the
      stripped, non-blank parts, in order. */
  lemma GetListOfJoined(env: Env, name: string, parts: seq<string>)
    requires |parts| > 0 && forall k :: 0 <= k < |parts| ==> ',' !in parts[k]
    requires name in env && env[name] == Join(parts, ",")
    ensures GetList(env, name) == NonEmptyItems(parts)
  {
    SplitOfJoin(parts, ',');
    if env[name] == "" {
      assert Split(env[name], ',') == [""];
      assert NonEmptyItems([""]) == [] by {
        assert Strip("") == "";
      }
    }
  }

  /** Blank parts and padding around the items are dropped. */
  lemma PaddedListReadsBack(env: Env, name: string)
    requires name in env && env[name] == " 1 ,, 2"
    ensures GetList(env, name) == ["1", "2"]
  {
    var parts := [" 1 ", "", " 2"];
    PaddedPartsJoin();
    GetListOfJoined(env, name, parts);
    PaddedStrips();
    ThreePartItems(" 1 ", "", " 2");
  }

  /** The padded text is three parts joined by commas. */
  lemma PaddedPartsJoin()
    ensures Join([" 1 ", "", " 2"], ",") == " 1 ,, 2"
  {
    var parts := [" 1 ", "", " 2"];
    assert parts[1..][1..] == [" 2"];
  }

  /** Three parts, the middle one blank, keep the stripped outer two. */
  lemma {:induction false} ThreePartItems(a: string, b: string, c: string)
    requires Strip(a) != "" && Strip(b) == "" && Strip(c) != ""
    ensures NonEmptyItems([a, b, c]) == [Strip(a), Strip(c)]
  {
    NonEmptyItemsSingle(a);
    NonEmptyItemsSingle(b);
    NonEmptyItemsSingle(c);
    NonEmptyItemsConcat([a], [b]);
    NonEmptyItemsConcat([a, b], [c]);
    assert [a] + [b] == [a, b];
    assert [a, b] + [c] == [a, b, c];
  }

  lemma NonEmptyItemsSingle(p: string)
    ensures NonEmptyItems([p]) == if Strip(p) == "" then [] else [Strip(p)]
  {
    assert [p][1..] == [];
  }

  lemma PaddedStrips()
    ensures Strip(" 1 ") == "1" && Strip("") == "" && Strip(" 2") == "2"
  {
    StripPaddedDigit('1');
    StripLeadingSpace('2');
    assert |Strip("")| <= 0;
  }

  lemma StripPaddedDigit(d: char)
    requires IsDigit(d)
    ensures Strip([' ', d, ' ']) == [d]
  {
    var s := [' ', d, ' '];
    assert IsSpace(' ') && !IsSpace(d);
    assert s[1..] == [d, ' '] && [d, ' '][..1] == [d];
    assert LStrip(s) == LStrip([d, ' ']) == [d, ' '];
    assert RStrip([d, ' ']) == RStrip([d]) == [d];
  }

  lemma StripLeadingSpace(d: char)
    requires IsDigit(d)
    ensures Strip([' ', d]) == [d]
  {
    var s := [' ', d];
    assert IsSpace(' ') && !IsSpace(d);
    assert s[1..] == [d];
    assert LStrip(s) == LStrip([d]) == [d];
    assert RStrip([d]) == [d];
  }

  lemma {:induction false} NonEmptyItemsOfItems(items: seq<string>)
    requires forall k :: 0 <= k < |items| ==> items[k] != "" && IsStripped(items[k])
    ensures NonEmptyItems(items) == items
  {
    if |items| > 0 {
      StripOfStripped(items[0]);
      NonEmptyItemsOfItems(items[1..]);
      assert items == [items[0]] + items[1..];
    }
  }

  /** A list written out with commas is read back item for item. */
  lemma GetListReadsJoined(env: Env, name: string, items: seq<string>)
    requires |items| > 0
    requires forall k :: 0 <= k < |items| ==> items[k] != "" && IsStripped(items[k]) && ',' !in items[k]
    requires name in env && env[name] == Join(items, ",")
    ensures GetList(env, name) == items
  {
    SplitOfJoin(items, ',');
    NonEmptyItemsOfItems(items);
    assert |Join(items, ",")| > 0 by {
      JoinHoldsFirst(items, ",");
    }
  }

  lemma JoinHoldsFirst(parts: seq<string>, sep: string)
    requires |parts| > 0
    ensures |Join(parts, sep)| >= |parts[0]|
  {
  }

  /** `int()` accepts every item. */
  predicate AllInts(items: seq<string>) {
    forall k :: 0 <= k < |items| ==> ParseInt(items[k]).Some?
  }

  /** `ns` holds the values of `items`, one for one. */
  predicate ParsedAs(items: seq<string>, ns: seq<int>) {
    |ns| == |items| && forall k :: 0 <= k < |items| ==> ParseInt(items[k]) == Some(ns[k])
  }

  /** Every item parsed with `int()`; the first failure is the error. */
  function ParseAll(items: seq<string>): (r: Result<seq<int>, ConfigError>)
    ensures r.Ok? <==> AllInts(items)
    ensures r.Ok? ==> ParsedAs(items, r.value)
  {
    if |items| == 0 then Ok([])
    else
      var head := ToInt(items[0]);
      var tail := ParseAll(items[1..]);
      assert AllInts(items) <==> ParseInt(items[0]).Some? && AllInts(items[1..]) by {
        assert forall k :: 1 <= k < |items| ==> items[k] == items[1..][k - 1];
      }
      if head.Err? then Err(head.error)
      else if tail.Err? then Err(tail.error)
      else
        var ns := [head.value] + tail.value;
        assert ParsedAs(items, ns) by {
          forall k | 0 <= k < |items| ensures ParseInt(items[k]) == Some(ns[k]) {
            if k > 0 {
              assert items[k] == items[1..][k - 1] && ns[k] == tail.value[k - 1];
            }
          }
        }
        Ok(ns)
  }

  /** `_parse_chat_ids`: a non-empty list of integers, required. */
  function ParseChatIds(env: Env, name: string): (r: Result<seq<int>, ConfigError>)
    ensures GetList(env, name) == [] ==> r == Err(MissingVar(name))
    ensures r.Ok? ==> |r.value| == |GetList(env, name)| > 0
    ensures r.Ok? ==> ParsedAs(GetList(env, name), r.value)
  {
    var raw := GetList(env, name);
    if raw == [] then Err(MissingVar(name)) else ParseAll(raw)
  }

  function Decimals(ids: seq<int>): (r: seq<string>)
    ensures |r| == |ids|
    ensures forall k :: 0 <= k < |ids| ==> r[k] == IntToDecimal(ids[k])
  {
    seq(|ids|, k requires 0 <= k < |ids| => IntToDecimal(ids[k]))
  }

  lemma DecimalIsItem(n: int)
    ensures var d := IntToDecimal(n);
      d != "" && IsStripped(d) && ',' !in d
  {
    var d := IntToDecimal(n);
    var digits := NatToDecimal(if n < 0 then -n else n);
    assert d[|d| - 1] == digits[|digits| - 1];
    assert forall k :: 0 <= k < |digits| ==> IsDigit(digits[k]);
    if n < 0 {
      assert forall k :: 1 <= k < |d| ==> d[k] == digits[k - 1];
    }
  }

  lemma ParsedAsUnique(items: seq<string>, a: seq<int>, b: seq<int>)
    requires ParsedAs(items, a) && ParsedAs(items, b)
    ensures a == b
  {
    forall k | 0 <= k < |a| ensures a[k] == b[k] {
      assert Some(a[k]) == ParseInt(items[k]) == Some(b[k]);
    }
  }

  /** Chat ids written out in decimal with commas are read back. */
  lemma ChatIdsReadBack(env: Env, name: string, ids: seq<int>)
    requires |ids| > 0
    requires name in env && env[name] == Join(Decimals(ids), ",")
    ensures ParseChatIds(env, name) == Ok(ids)
  {
    var items := Decimals(ids);
    forall k | 0 <= k < |items| ensures items[k] != "" && IsStripped(items[k]) && ',' !in items[k] {
      DecimalIsItem(ids[k]);
    }
    GetListReadsJoined(env, name, items);
    forall k | 0 <= k < |ids| ensures ParseInt(items[k]) == Some(ids[k]) {
      ParseIntOfDecimal(ids[k]);
    }
    assert ParsedAs(items, ids);
    assert AllInts(items);
    ParsedAsUnique(items, ids, ParseChatIds(env, name).value);
  }

  /** Hours 0..23 and minutes 0..59. */
  predicate ValidTime(hour: int, minute: int) {
    0 <= hour <= 23 && 0 <= minute <= 59
  }

  /** `_get_time`: nothing for an unset or blank variable; otherwise exactly
      two colon-separated integers, in range. */
  function GetTime(env: Env, name: string): (r: Result<Option<Digest.TimeOfDay>, ConfigError>)
    ensures Strip(GetEnv(env, name, "")) == "" ==> r == Ok(None)
    ensures r.Ok? && r.value.Some? ==> ValidTime(r.value.value.hour, r.value.value.minute)
  {
    var value := Strip(GetEnv(env, name, ""));
    var r := ParseTime(name, value);
    assert value == "" ==> r == Ok(None);
    r
  }

  /** The checks of `_get_time` on the stripped value. */
  function ParseTime(name: string, value: string): (r: Result<Option<Digest.TimeOfDay>, ConfigError>)
    ensures value == "" ==> r == Ok(None)
    ensures value != "" && |Split(value, ':')| != 2 ==> r == Err(BadTimeFormat(name))
    ensures r.Ok? && r.value.Some? ==>
      && ValidTime(r.value.value.hour, r.value.value.minute)
      && |Split(value, ':')| == 2
      && ParseInt(Split(value, ':')[0]) == Some(r.value.value.hour)
      && ParseInt(Split(value, ':')[1]) == Some(r.value.value.minute)
  {
    if value == "" then Ok(None)
    else
      var parts := Split(value, ':');
      if |parts| != 2 then Err(BadTimeFormat(name))
      else
        var hour :- ToInt(parts[0]);
        var minute :- ToInt(parts[1]);
        if !ValidTime(hour, minute) then Err(BadTimeValue(name))
        else Ok(Some(Digest.TimeOfDay(hour, minute)))
  }

  /** Two digit fields around a colon are taken when in range and refused
      otherwise. */
  lemma ParseTimeOfFields(name: string, h: string, m: string)
    requires |h| > 0 && AllDigits(h) && |m| > 0 && AllDigits(m)
    ensures ValidTime(DecimalValue(h), DecimalValue(m)) ==>
      ParseTime(name, h + ":" + m) == Ok(Some(Digest.TimeOfDay(DecimalValue(h), DecimalValue(m))))
    ensures !ValidTime(DecimalValue(h), DecimalValue(m)) ==>
      ParseTime(name, h + ":" + m) == Err(BadTimeValue(name))
  {
    ColonFieldsReadBack(h, m);
    assert ToInt(h) == Ok(DecimalValue(h) as int);
    assert ToInt(m) == Ok(DecimalValue(m) as int);
  }

  /** A time written as `HH:MM` is read back. */
  lemma GetTimeReadsBack(env: Env, name: string, hour: nat, minute: nat)
    requires ValidTime(hour, minute)
    requires name in env && env[name] == TwoDigits(hour) + ":" + TwoDigits(minute)
    ensures GetTime(env, name) == Ok(Some(Digest.TimeOfDay(hour, minute)))
  {
    var h, m := TwoDigits(hour), TwoDigits(minute);
    var text := h + ":" + m;
    assert IsStripped(text) by {
      assert text[0] == h[0] && IsDigit(h[0]);
      assert text[|text| - 1] == m[1] && IsDigit(m[1]);
    }
    StripOfStripped(text);
    ParseTimeOfFields(name, h, m);
  }

  /** Out-of-range values are refused, not wrapped. */
  lemma GetTimeRejectsRange(env: Env, name: string)
    requires name in env && env[name] == "24:00"
    ensures GetTime(env, name) == Err(BadTimeValue(name))
  {
    var h, m := "24", "00";
    assert env[name] == h + ":" + m;
    assert IsStripped(env[name]);
    StripOfStripped(env[name]);
    assert DecimalValue(h) == 24 by {
      assert h[..1] == "2";
    }
    ParseTimeOfFields(name, h, m);
  }

  // ---------------------------------------------------------------------
  // The settings record

  /** The loaded settings. The time zone is kept by name; resolving it is
      not part of the model. */
  datatype Settings = Settings(
    ewsServer: string,
    ewsEmail: string,
    ewsUsername: string,
    ewsPassword: string,
    ewsAuthType: string,
    ewsVerifySsl: bool,
    updateInterval: int,
    appointmentRefreshInterval: int,
    appointmentNotifyInterval: int,
    mailRefreshInterval: int,
    appointmentBotToken: string,
    mailBotToken: string,
    allowedChatIds: seq<int>,
    adminChatId: int,
    localTimezone: string,
    keywords: seq<string>,
    mentionText: string,
    agendaTime: Option<Digest.TimeOfDay>,
    logLevel: string)

  const DefaultAuthType: string := "NTLM"
  const DefaultMentionText: string := "@poznik"
  const DefaultLogLevel: string := "INFO"

  datatype ExchangePart = ExchangePart(server: string, email: string, username: string,
                                       password: string, authType: string, verifySsl: bool)
  datatype IntervalPart = IntervalPart(update: int, appointmentRefresh: int,
                                       appointmentNotify: int, mailRefresh: int)
  datatype TelegramPart = TelegramPart(appointmentToken: string, mailToken: string,
                                       chatIds: seq<int>, adminId: int)
  datatype LocalePart = LocalePart(timezone: string, keywords: seq<string>, mention: string,
                                   agendaTime: Option<Digest.TimeOfDay>, logLevel: string)

  /** The Exchange account: four required variables, then the
      authentication type and the certificate check with their defaults. */
  function LoadExchange(env: Env): (r: Result<ExchangePart, ConfigError>)
    ensures r.Ok? <==> IsSet(env, "EWS_SERVER") && IsSet(env, "EWS_EMAIL")
                       && IsSet(env, "EWS_USERNAME") && IsSet(env, "EWS_PASSWORD")
    ensures r.Ok? ==> && r.value.server == env["EWS_SERVER"] && r.value.email == env["EWS_EMAIL"]
                      && r.value.username == env["EWS_USERNAME"] && r.value.password == env["EWS_PASSWORD"]
                      && r.value.authType == GetEnv(env, "EWS_AUTH_TYPE", DefaultAuthType)
                      && r.value.verifySsl == GetBool(env, "EWS_VERIFY_SSL", true)
    ensures !IsSet(env, "EWS_SERVER") ==> r == Err(MissingVar("EWS_SERVER"))
  {
    var server :- RequireEnv(env, "EWS_SERVER");
    var email :- RequireEnv(env, "EWS_EMAIL");
    var username :- RequireEnv(env, "EWS_USERNAME");
    var password :- RequireEnv(env, "EWS_PASSWORD");
    Ok(ExchangePart(server, email, username, password,
                    GetEnv(env, "EWS_AUTH_TYPE", DefaultAuthType), GetBool(env, "EWS_VERIFY_SSL", true)))
  }

  /** The four polling intervals, each required and an integer. */
  function LoadIntervals(env: Env): (r: Result<IntervalPart, ConfigError>)
    ensures r.Ok? ==> && IsSet(env, "UPDATE_INTERVAL") && IsSet(env, "APPOINTMENT_REFRESH_INTERVAL")
                      && IsSet(env, "APPOINTMENT_NOTIFY_INTERVAL") && IsSet(env, "MAIL_REFRESH_INTERVAL")
    ensures r.Ok? ==> && ParseInt(env["UPDATE_INTERVAL"]) == Some(r.value.update)
                      && ParseInt(env["APPOINTMENT_REFRESH_INTERVAL"]) == Some(r.value.appointmentRefresh)
                      && ParseInt(env["APPOINTMENT_NOTIFY_INTERVAL"]) == Some(r.value.appointmentNotify)
                      && ParseInt(env["MAIL_REFRESH_INTERVAL"]) == Some(r.value.mailRefresh)
  {
    var update :- GetInt(env, "UPDATE_INTERVAL", None);
    var refresh :- GetInt(env, "APPOINTMENT_REFRESH_INTERVAL", None);
    var notify :- GetInt(env, "APPOINTMENT_NOTIFY_INTERVAL", None);
    var mail :- GetInt(env, "MAIL_REFRESH_INTERVAL", None);
    Ok(IntervalPart(update, refresh, notify, mail))
  }

  /** The two bot tokens, the allowed chats and the admin chat. */
  function LoadTelegram(env: Env): (r: Result<TelegramPart, ConfigError>)
    ensures r.Ok? ==> && IsSet(env, "APPOINTMENT_BOT_TOKEN") && IsSet(env, "MAIL_BOT_TOKEN")
                      && IsSet(env, "ALLOWED_CHAT_IDS") && IsSet(env, "ADMIN_CHAT_ID")
    ensures r.Ok? ==> && r.value.appointmentToken == env["APPOINTMENT_BOT_TOKEN"]
                      && r.value.mailToken == env["MAIL_BOT_TOKEN"]
                      && |r.value.chatIds| > 0
                      && ParsedAs(GetList(env, "ALLOWED_CHAT_IDS"), r.value.chatIds)
                      && ParseInt(env["ADMIN_CHAT_ID"]) == Some(r.value.adminId)
  {
    var appointmentToken :- RequireEnv(env, "APPOINTMENT_BOT_TOKEN");
    var mailToken :- RequireEnv(env, "MAIL_BOT_TOKEN");
    var chatIds :- ParseChatIds(env, "ALLOWED_CHAT_IDS");
    var adminText :- RequireEnv(env, "ADMIN_CHAT_ID");
    var adminId :- ToInt(adminText);
    Ok(TelegramPart(appointmentToken, mailToken, chatIds, adminId))
  }

  /** Time zone, keywords, mention text, digest time and log level. */
  function LoadLocale(env: Env): (r: Result<LocalePart, ConfigError>)
    ensures r.Ok? ==> IsSet(env, "LOCAL_TIMEZONE") && r.value.timezone == env["LOCAL_TIMEZONE"]
    ensures r.Ok? ==> && r.value.keywords == GetList(env, "KEYWORDS")
                      && r.value.mention == Strip(GetEnv(env, "MENTION_TEXT", DefaultMentionText))
                      && r.value.logLevel == GetEnv(env, "LOG_LEVEL", DefaultLogLevel)
                      && GetTime(env, "AGENDA_TIME") == Ok(r.value.agendaTime)
  {
    var timezone :- RequireEnv(env, "LOCAL_TIMEZONE");
    var keywords := GetList(env, "KEYWORDS");
    var mention := Strip(GetEnv(env, "MENTION_TEXT", DefaultMentionText));
    var agendaTime :- GetTime(env, "AGENDA_TIME");
    Ok(LocalePart(timezone, keywords, mention, agendaTime, GetEnv(env, "LOG_LEVEL", DefaultLogLevel)))
  }

  /** `load_settings`: every variable read in the program's order, the
      first failure ending the load. */
  function LoadSettings(env: Env): (r: Result<Settings, ConfigError>)
    ensures r.Ok? <==> LoadExchange(env).Ok? && LoadIntervals(env).Ok? && LoadTelegram(env).Ok? && LoadLocale(env).Ok?
    ensures r.Ok? ==>
      var x, i, t, l := LoadExchange(env).value, LoadIntervals(env).value, LoadTelegram(env).value, LoadLocale(env).value;
      r.value == Settings(x.server, x.email, x.username, x.password, x.authType, x.verifySsl,
                          i.update, i.appointmentRefresh, i.appointmentNotify, i.mailRefresh,
                          t.appointmentToken, t.mailToken, t.chatIds, t.adminId,
                          l.timezone, l.keywords, l.mention, l.agendaTime, l.logLevel)
    ensures LoadExchange(env).Err? ==> r == Err(LoadExchange(env).error)
  {
    var x :- LoadExchange(env);
    var i :- LoadIntervals(env);
    var t :- LoadTelegram(env);
    var l :- LoadLocale(env);
    Ok(Settings(x.server, x.email, x.username, x.password, x.authType, x.verifySsl,
                i.update, i.appointmentRefresh, i.appointmentNotify, i.mailRefresh,
                t.appointmentToken, t.mailToken, t.chatIds, t.adminId,
                l.timezone, l.keywords, l.mention, l.agendaTime, l.logLevel))
  }

  /** The variables a successful load cannot do without. */
  predicate RequiredSet(env: Env) {
    && IsSet(env, "EWS_SERVER") && IsSet(env, "EWS_EMAIL")
    && IsSet(env, "EWS_USERNAME") && IsSet(env, "EWS_PASSWORD")
    && IsSet(env, "UPDATE_INTERVAL") && IsSet(env, "APPOINTMENT_REFRESH_INTERVAL")
    && IsSet(env, "APPOINTMENT_NOTIFY_INTERVAL") && IsSet(env, "MAIL_REFRESH_INTERVAL")
    && IsSet(env, "APPOINTMENT_BOT_TOKEN") && IsSet(env, "MAIL_BOT_TOKEN")
    && IsSet(env, "ALLOWED_CHAT_IDS") && IsSet(env, "ADMIN_CHAT_ID")
    && IsSet(env, "LOCAL_TIMEZONE")
  }

  /** A load succeeds only with every required variable set, and then keeps
      the secrets as given, at least one allowed chat, and a valid digest
      time. */
  lemma LoadedSettingsAreComplete(env: Env)
    ensures LoadSettings(env).Ok? ==> RequiredSet(env)
    ensures LoadSettings(env).Ok? ==>
      var st := LoadSettings(env).value;
      && st.ewsServer == env["EWS_SERVER"] && st.ewsPassword == env["EWS_PASSWORD"]
      && st.appointmentBotToken == env["APPOINTMENT_BOT_TOKEN"] && st.mailBotToken == env["MAIL_BOT_TOKEN"]
      && |st.allowedChatIds| > 0
      && (st.agendaTime.Some? ==> ValidTime(st.agendaTime.value.hour, st.agendaTime.value.minute))
  {
  }

  lemma ExchangeDefaults(env: Env)
    requires LoadExchange(env).Ok?
    ensures "EWS_AUTH_TYPE" !in env ==> LoadExchange(env).value.authType == "NTLM"
    ensures !IsSet(env, "EWS_VERIFY_SSL") ==> LoadExchange(env).value.verifySsl
  {
  }

  lemma LocaleDefaults(env: Env)
    requires LoadLocale(env).Ok?
    ensures "MENTION_TEXT" !in env ==> LoadLocale(env).value.mention == "@poznik"
    ensures "LOG_LEVEL" !in env ==> LoadLocale(env).value.logLevel == "INFO"
    ensures !IsSet(env, "KEYWORDS") ==> LoadLocale(env).value.keywords == []
    ensures "AGENDA_TIME" !in env ==> LoadLocale(env).value.agendaTime.None?
  {
    UnsetDefaults(env);
  }

  lemma UnsetDefaults(env: Env)
    ensures "MENTION_TEXT" !in env ==> Strip(GetEnv(env, "MENTION_TEXT", DefaultMentionText)) == "@poznik"
    ensures "AGENDA_TIME" !in env ==> GetTime(env, "AGENDA_TIME") == Ok(None)
  {
    assert IsStripped(DefaultMentionText);
    StripOfStripped(DefaultMentionText);
    assert |Strip("")| == 0;
  }

  /** Unset optional variables take the program's defaults. */
  lemma LoadDefaults(env: Env)
    requires LoadSettings(env).Ok?
    ensures "EWS_AUTH_TYPE" !in env ==> LoadSettings(env).value.ewsAuthType == "NTLM"
    ensures !IsSet(env, "EWS_VERIFY_SSL") ==> LoadSettings(env).value.ewsVerifySsl
    ensures "MENTION_TEXT" !in env ==> LoadSettings(env).value.mentionText == "@poznik"
    ensures "LOG_LEVEL" !in env ==> LoadSettings(env).value.logLevel == "INFO"
    ensures !IsSet(env, "KEYWORDS") ==> LoadSettings(env).value.keywords == []
    ensures "AGENDA_TIME" !in env ==> LoadSettings(env).value.agendaTime.None?
  {
    ExchangeDefaults(env);
    LocaleDefaults(env);
  }

  /** The server is checked first: without it, that is the error. */
  lemma MissingServerReported(env: Env)
    requires !IsSet(env, "EWS_SERVER")
    ensures LoadSettings(env) == Err(MissingVar("EWS_SERVER"))
  {
  }
}
