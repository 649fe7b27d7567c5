/** The shoutrrr URL for a Telegram notification channel. */
module Telegram {
  import opened Wrappers

  /** The Telegram-specific part of a notification configuration. */
  datatype TelegramConfig = TelegramConfig(botToken: string, chatId: string)

  const Scheme: string := "telegram://"
  const ChannelsQuery: string := "@telegram?channels="

  /**
   * `buildTelegramShoutrrrUrl`: the token and chat id are pasted in verbatim,
   * with no escaping, around two fixed pieces that add 30 characters.
   */
  function BuildTelegramShoutrrrUrl(config: TelegramConfig): (url: string)
    ensures |url| == |config.botToken| + |config.chatId| + 30
    ensures Scheme <= url
    ensures url[|Scheme|..|Scheme| + |config.botToken|] == config.botToken
    ensures url[|Scheme| + |config.botToken|..|url| - |config.chatId|] == ChannelsQuery
    ensures url[|url| - |config.chatId|..] == config.chatId
  {
    var url := Scheme + config.botToken + ChannelsQuery + config.chatId;
    assert url[|Scheme|..|Scheme| + |config.botToken|] == config.botToken;
    url
  }

  /** Index of the first `c` in `s`, or `|s|` when there is none. */
  function IndexOf(s: string, c: char): (i: nat)
    ensures i <= |s|
    ensures forall j :: 0 <= j < i ==> s[j] != c
    ensures i < |s| ==> s[i] == c
  {
    if |s| == 0 then 0
    else if s[0] == c then 0
    else 1 + IndexOf(s[1..], c)
  }

  /** Reads token and chat id back out of a URL, splitting at the first `'@'`. */
  function ParseTelegramShoutrrrUrl(url: string): Option<TelegramConfig> {
    if !(Scheme <= url) then None
    else
      var body := url[|Scheme|..];
      var at := IndexOf(body, '@');
      var rest := body[at..];
      if ChannelsQuery <= rest then Some(TelegramConfig(body[..at], rest[|ChannelsQuery|..]))
      else None
  }

  /** The first `c` in `a + b`, when `a` has none and `b` starts with one, is where `b` starts. */
  lemma {:induction false} IndexOfAfter(a: string, b: string, c: char)
    requires c !in a
    requires 0 < |b| && b[0] == c
    ensures IndexOf(a + b, c) == |a|
  {
    if |a| > 0 {
      assert (a + b)[1..] == a[1..] + b;
      IndexOfAfter(a[1..], b, c);
    } else {
      assert a + b == b;
    }
  }

  /** A token without `'@'` makes the URL unambiguous: parsing recovers the configuration. */
  lemma ParseBuild(config: TelegramConfig)
    requires '@' !in config.botToken
    ensures ParseTelegramShoutrrrUrl(BuildTelegramShoutrrrUrl(config)) == Some(config)
  {
    var url := BuildTelegramShoutrrrUrl(config);
    var n := |config.botToken|;
    var tail := ChannelsQuery + config.chatId;
    var body := url[|Scheme|..];
    assert url == Scheme + (config.botToken + tail);
    assert body == config.botToken + tail;
    IndexOfAfter(config.botToken, tail, '@');
    assert body[n..] == tail;
    assert tail[|ChannelsQuery|..] == config.chatId;
    assert body[..n] == config.botToken;
  }

  /**
   * Without that condition two different configurations can share a URL,
   * since nothing is escaped: a token that itself contains the channels query
   * reads the same as a chat id that does.
   */
  lemma TokenWithAtIsAmbiguous(a: string, b: string, c: string)
    ensures TelegramConfig(a + ChannelsQuery + b, c) != TelegramConfig(a, b + ChannelsQuery + c)
    ensures BuildTelegramShoutrrrUrl(TelegramConfig(a + ChannelsQuery + b, c))
            == BuildTelegramShoutrrrUrl(TelegramConfig(a, b + ChannelsQuery + c))
  {
    assert |a + ChannelsQuery + b| != |a|;
    assert Scheme + (a + ChannelsQuery + b) + ChannelsQuery + c == Scheme + a + ChannelsQuery + (b + ChannelsQuery + c);
  }
}
