/**
 * The body slice of `from_text_message` corrected. The source takes the body from one
 * byte past the start of the scalar that follows the channel's ' ', which is meant to skip
 * the ':' sigil but splits that scalar, and panics, when it is several bytes long. Slicing
 * from the end of that scalar (`i + codepoint.len_utf8()`) never panics and changes nothing
 * on any line the source classifies without panicking.
 */
module CorrectedBody {
  import opened Whitespace
  import opened Parsing
  import ParsingProperties

  /** The message whose body follows the whole scalar at `k`, whatever its width. */
  function EmitCorrected(s: string, user: string, k: nat): (r: Outcome)
    requires k <= |s|
    ensures r.Ok? <==> k < |s|
    ensures !r.Panic?
  {
    if k == |s| then Err(UnknownMessageType)
    else Ok(UserMessage(MessageInfo(user, Trim(s[k + 1..]))))
  }

  /** `from_text_message` with the corrected body slice. */
  function TextMessageCorrected(s: string): (r: Outcome)
  {
    match Split(s)
    case None => Err(UnknownMessageType)
    case Some(p) => EmitCorrected(s, p.user, p.sigil)
  }

  /** `parse_from_str` with the corrected body slice. */
  function ParseCorrected(s: string): (r: Outcome)
  {
    if s != [] && s[0] == ':' then TextMessageCorrected(s) else FromPingMessage(s)
  }

  /** The corrected parser never panics, and agrees with the source wherever the source does not panic. */
  lemma CorrectedRefinesSource(s: string)
    ensures !ParseCorrected(s).Panic?
    ensures !Parse(s).Panic? ==> ParseCorrected(s) == Parse(s)
    ensures Parse(s).Panic? ==> ParseCorrected(s).Ok? && ParseCorrected(s).msg.UserMessage?
  {
  }

  /** The line on which the source panics (see `WideScalarAfterChannelPanics`) gets a body from the corrected parser. */
  lemma CorrectedWideScalarAfterChannel()
    ensures ParseCorrected(":" + "a" + "!" + "b" + " PRIVMSG " + "#c" + " " + ['\U{E9}'] + "t\U{E9}")
         == Ok(UserMessage(MessageInfo("a", "t\U{E9}")))
  {
    CorrectedRoundTrip("a", "b", "#c", '\U{E9}', "t\U{E9}");
    TrimIsCore("t\U{E9}", 0, 2);
  }

  /** The wire format round trip holds for the corrected parser whatever scalar follows the channel's ' '. */
  lemma CorrectedRoundTrip(nick: string, host: string, channel: string, sigil: char, body: string)
    requires forall q :: 0 <= q < |nick| ==> nick[q] !in {' ', ':', '!'}
    requires forall q :: 0 <= q < |host| ==> host[q] != ' '
    requires forall q :: 0 <= q < |channel| ==> channel[q] != ' '
    ensures ParseCorrected(":" + nick + "!" + host + " PRIVMSG " + channel + " " + [sigil] + body)
         == Ok(UserMessage(MessageInfo(nick, Trim(body))))
  {
    var k := ParsingProperties.WireLineSplit(nick, host, channel, sigil, body);
  }
}
