/** What the classifier promises about the lines it accepts and the lines it refuses. */
module ParsingProperties {
  import opened Whitespace
  import opened Parsing

  /** A line starting with ':' is never a ping; any other line is never a user message and never panics. */
  lemma DispatchExclusive(s: string)
    ensures s != [] && s[0] == ':' ==> !(Parse(s).Ok? && Parse(s).msg.PingMessage?)
    ensures !(s != [] && s[0] == ':') ==> !(Parse(s).Ok? && Parse(s).msg.UserMessage?) && !Parse(s).Panic?
  {
  }

  /** `PING :` followed by anything is a ping whose server is that text, verbatim. */
  lemma PingRoundTrip(x: string)
    ensures Parse("PING :" + x) == Ok(PingMessage(x))
  {
    var s := "PING :" + x;
    assert s[0] == 'P';
    assert s[..6] == "PING :";
  }

  /** A line that does not start with ':' is accepted exactly when it starts with `PING :`. */
  lemma PingNeedsPrefix(s: string)
    requires !(s != [] && s[0] == ':')
    ensures Parse(s).Ok? <==> 6 <= |s| && s[..6] == "PING :"
    ensures Parse(s).Ok? ==> Parse(s).msg == PingMessage(s[6..])
    ensures !Parse(s).Ok? ==> Parse(s) == Err(UnknownMessageType)
  {
    if Parse(s).Ok? {
      assert s == "PING :" + Parse(s).msg.server;
      assert s[6..] == Parse(s).msg.server;
    }
  }

  /**
   * A line that splits has the full shape: a first '!' with no ' ' before it, then three
   * ' '-terminated words of which the middle one is exactly "PRIVMSG"; the nickname is what
   * lies between the last ':' before that '!' and the '!'.
   */
  lemma SplitShape(s: string) returns (bang: nat, infoEnd: nat, tokenEnd: nat, channelEnd: nat)
    requires Split(s).Some?
    ensures FirstFrom(s, '!', 0, bang) && forall q :: 0 <= q < bang ==> s[q] != ' '
    ensures FirstFrom(s, ' ', bang + 1, infoEnd)
    ensures FirstFrom(s, ' ', infoEnd + 1, tokenEnd) && s[infoEnd + 1..tokenEnd] == "PRIVMSG"
    ensures FirstFrom(s, ' ', tokenEnd + 1, channelEnd)
    ensures Split(s) == Some(Prefix(s[NickStart(s, bang)..bang], channelEnd + 1))
  {
    bang := FindFrom(s, '!', 0).value;
    assert !SpaceBefore(s, bang);
    assert Split(s) == AfterNick(s, bang);
    infoEnd := FindFrom(s, ' ', bang + 1).value;
    tokenEnd := FindFrom(s, ' ', infoEnd + 1).value;
    assert Split(s) == AfterCommand(s, bang, tokenEnd);
    channelEnd := FindFrom(s, ' ', tokenEnd + 1).value;
  }

  /**
   * A ':' line that does not fail has the full shape of `SplitShape`, then at least one
   * more scalar. It gives a message exactly when that scalar is a single byte; the nickname
   * follows a ':' and ends at the first '!', and the body is what follows that scalar,
   * trimmed. (So a line that ends before any of these parts fails.)
   */
  lemma LineShape(s: string) returns (bang: nat, infoEnd: nat, tokenEnd: nat, channelEnd: nat, sigil: nat)
    requires s != [] && s[0] == ':'
    requires !Parse(s).Err?
    ensures FirstFrom(s, '!', 0, bang) && forall q :: 0 <= q < bang ==> s[q] != ' '
    ensures FirstFrom(s, ' ', bang + 1, infoEnd)
    ensures FirstFrom(s, ' ', infoEnd + 1, tokenEnd) && s[infoEnd + 1..tokenEnd] == "PRIVMSG"
    ensures FirstFrom(s, ' ', tokenEnd + 1, channelEnd) && sigil == channelEnd + 1 && sigil < |s|
    ensures Parse(s).Ok? <==> IsAscii(s[sigil])
    ensures Parse(s).Ok? ==>
      && 0 < NickStart(s, bang)
      && Parse(s).msg.info.user == s[NickStart(s, bang)..bang]
      && Parse(s).msg.info.text == Trim(s[sigil + 1..])
  {
    assert Parse(s) == TextMessage(s);
    bang, infoEnd, tokenEnd, channelEnd := SplitShape(s);
    sigil := channelEnd + 1;
    assert Parse(s) == Emit(s, s[NickStart(s, bang)..bang], sigil);
    assert s[0] != '!';
  }

  /** The nickname of a user message holds no ' ', ':' or '!'. */
  lemma NicknameCharset(s: string, info: MessageInfo)
    requires Parse(s) == Ok(UserMessage(info))
    ensures forall q :: 0 <= q < |info.user| ==> info.user[q] !in {' ', ':', '!'}
  {
    var bang, infoEnd, tokenEnd, channelEnd, sigil := LineShape(s);
    var a := NickStart(s, bang);
    SliceAvoids(s, a, bang, ' ');
    SliceAvoids(s, a, bang, ':');
    SliceAvoids(s, a, bang, '!');
  }

  /** A stretch of `s` that holds no `c` is a slice that holds no `c`. */
  lemma SliceAvoids(s: string, a: nat, b: nat, c: char)
    requires a <= b <= |s|
    requires forall q :: a <= q < b ==> s[q] != c
    ensures forall q :: 0 <= q < b - a ==> s[a..b][q] != c
  {
  }

  /** A ' ' before the first '!' of a ':' line makes it fail. */
  lemma SpaceBeforeNickEndFails(s: string, p: nat)
    requires s != [] && s[0] == ':'
    requires p < |s| && s[p] == ' '
    requires forall q :: 0 <= q < p ==> s[q] != '!'
    ensures Parse(s) == Err(UnknownMessageType)
  {
    if !Parse(s).Err? {
      var bang, infoEnd, tokenEnd, channelEnd, sigil := LineShape(s);
      assert false;
    }
  }

  /** A command token other than "PRIVMSG", the empty one included, makes the line fail. */
  lemma OtherCommandFails(s: string, bang: nat, infoEnd: nat, tokenEnd: nat)
    requires s != [] && s[0] == ':'
    requires FirstFrom(s, '!', 0, bang)
    requires FirstFrom(s, ' ', bang + 1, infoEnd)
    requires FirstFrom(s, ' ', infoEnd + 1, tokenEnd)
    requires s[infoEnd + 1..tokenEnd] != "PRIVMSG"
    ensures Parse(s) == Err(UnknownMessageType)
  {
    FindFromFirst(s, '!', 0, bang);
    FindFromFirst(s, ' ', bang + 1, infoEnd);
    FindFromFirst(s, ' ', infoEnd + 1, tokenEnd);
    assert AfterNick(s, bang) == None;
  }

  /** With no `c` at or after `from`, `FindFrom` finds nothing. */
  lemma FindFromNone(s: string, c: char, from: nat)
    requires forall q :: from <= q < |s| ==> s[q] != c
    ensures FindFrom(s, c, from) == None
  {
  }

  /** A first occurrence before the cut is still the first occurrence in the prefix. */
  lemma PrefixFinds(s: string, n: nat, c: char, from: nat, p: nat)
    requires FirstFrom(s, c, from, p) && p < n <= |s|
    ensures FindFrom(s[..n], c, from) == Some(p)
  {
    assert FirstFrom(s[..n], c, from, p);
    FindFromFirst(s[..n], c, from, p);
  }

  /** A first occurrence at or after the cut leaves none in the prefix. */
  lemma PrefixMisses(s: string, n: nat, c: char, from: nat, p: nat)
    requires FirstFrom(s, c, from, p) && n <= p
    ensures FindFrom(s[..n], c, from) == None
  {
    FindFromNone(s[..n], c, from);
  }

  /**
   * A line cut short fails: if a ':' line splits, every prefix of it that ends at or
   * before the scalar after the channel's ' ' (so before any body) is refused, the empty
   * line included.
   */
  lemma TruncatedLineFails(s: string, n: nat)
    requires s != [] && s[0] == ':'
    requires Split(s).Some? && n <= Split(s).value.sigil
    ensures Parse(s[..n]) == Err(UnknownMessageType)
  {
    var bang, infoEnd, tokenEnd, channelEnd := SplitShape(s);
    var t := s[..n];
    if n == 0 {
      assert t == [];
    } else {
      assert t[0] == ':';
      if n <= bang {
        PrefixMisses(s, n, '!', 0, bang);
      } else {
        PrefixFinds(s, n, '!', 0, bang);
        assert FirstFrom(s, ' ', 0, infoEnd);
        if n <= infoEnd {
          PrefixMisses(s, n, ' ', 0, infoEnd);
          PrefixMisses(s, n, ' ', bang + 1, infoEnd);
        } else {
          PrefixFinds(s, n, ' ', 0, infoEnd);
          CutAfterNick(s, n, bang, infoEnd, tokenEnd, channelEnd);
        }
        assert Split(t) == AfterNick(t, bang);
      }
    }
  }

  /** Cut past the host part but no later than the sigil, the line splits at most up to the cut. */
  lemma CutAfterNick(s: string, n: nat, bang: nat, infoEnd: nat, tokenEnd: nat, channelEnd: nat)
    requires FirstFrom(s, ' ', bang + 1, infoEnd)
    requires FirstFrom(s, ' ', infoEnd + 1, tokenEnd) && s[infoEnd + 1..tokenEnd] == "PRIVMSG"
    requires FirstFrom(s, ' ', tokenEnd + 1, channelEnd)
    requires infoEnd < n <= channelEnd + 1 && bang < n
    ensures AfterNick(s[..n], bang) == None || AfterNick(s[..n], bang).value.sigil == n
  {
    var t := s[..n];
    PrefixFinds(s, n, ' ', bang + 1, infoEnd);
    if n <= tokenEnd {
      PrefixMisses(s, n, ' ', infoEnd + 1, tokenEnd);
    } else {
      PrefixFinds(s, n, ' ', infoEnd + 1, tokenEnd);
      assert t[infoEnd + 1..tokenEnd] == s[infoEnd + 1..tokenEnd];
      CutAfterCommand(s, n, bang, tokenEnd, channelEnd);
    }
  }

  /** Cut past the command token but no later than the sigil, the line splits at most up to the cut. */
  lemma CutAfterCommand(s: string, n: nat, bang: nat, tokenEnd: nat, channelEnd: nat)
    requires FirstFrom(s, ' ', tokenEnd + 1, channelEnd)
    requires tokenEnd < n <= channelEnd + 1 && bang < n
    ensures AfterCommand(s[..n], bang, tokenEnd) == None || AfterCommand(s[..n], bang, tokenEnd).value.sigil == n
  {
    if n <= channelEnd {
      PrefixMisses(s, n, ' ', tokenEnd + 1, channelEnd);
    } else {
      PrefixFinds(s, n, ' ', tokenEnd + 1, channelEnd);
    }
  }

  /** The body of a user message neither starts nor ends with white space, and trimming it again changes nothing. */
  lemma BodyIsTrimmed(s: string, info: MessageInfo)
    requires Parse(s) == Ok(UserMessage(info))
    ensures info.text != [] ==> !IsWs(info.text[0]) && !IsWs(info.text[|info.text| - 1])
    ensures Trim(info.text) == info.text
  {
    var bang, infoEnd, tokenEnd, channelEnd, sigil := LineShape(s);
    TrimIdempotent(s[sigil + 1..]);
  }

  /**
   * The converse of `SplitShape`: a line with a first '!' and no ' ' before it, then three
   * ' '-terminated words of which the middle one is "PRIVMSG", splits at these positions.
   */
  lemma ShapedLineSplits(s: string, bang: nat, infoEnd: nat, tokenEnd: nat, channelEnd: nat)
    requires FirstFrom(s, '!', 0, bang) && forall q :: 0 <= q < bang ==> s[q] != ' '
    requires FirstFrom(s, ' ', bang + 1, infoEnd)
    requires FirstFrom(s, ' ', infoEnd + 1, tokenEnd) && s[infoEnd + 1..tokenEnd] == "PRIVMSG"
    requires FirstFrom(s, ' ', tokenEnd + 1, channelEnd)
    ensures Split(s) == Some(Prefix(s[NickStart(s, bang)..bang], channelEnd + 1))
  {
    NickStage(s, bang, infoEnd);
    CommandStage(s, bang, infoEnd, tokenEnd);
    ChannelStage(s, bang, tokenEnd, channelEnd);
  }

  /** The first stage of `ShapedLineSplits`: the '!' is found with no ' ' before it. */
  lemma NickStage(s: string, bang: nat, infoEnd: nat)
    requires FirstFrom(s, '!', 0, bang) && forall q :: 0 <= q < bang ==> s[q] != ' '
    requires FirstFrom(s, ' ', bang + 1, infoEnd)
    ensures Split(s) == AfterNick(s, bang)
  {
    FindFromFirst(s, '!', 0, bang);
    FindFromFirst(s, ' ', 0, infoEnd);
  }

  /** The second stage of `ShapedLineSplits`: the host part and the command token. */
  lemma CommandStage(s: string, bang: nat, infoEnd: nat, tokenEnd: nat)
    requires bang < |s|
    requires FirstFrom(s, ' ', bang + 1, infoEnd)
    requires FirstFrom(s, ' ', infoEnd + 1, tokenEnd) && s[infoEnd + 1..tokenEnd] == "PRIVMSG"
    ensures AfterNick(s, bang) == AfterCommand(s, bang, tokenEnd)
  {
    FindFromFirst(s, ' ', bang + 1, infoEnd);
    FindFromFirst(s, ' ', infoEnd + 1, tokenEnd);
  }

  /** The last stage of `ShapedLineSplits`: the channel. */
  lemma ChannelStage(s: string, bang: nat, tokenEnd: nat, channelEnd: nat)
    requires bang < |s|
    requires FirstFrom(s, ' ', tokenEnd + 1, channelEnd)
    ensures AfterCommand(s, bang, tokenEnd) == Some(Prefix(s[NickStart(s, bang)..bang], channelEnd + 1))
  {
    FindFromFirst(s, ' ', tokenEnd + 1, channelEnd);
  }

  /** When such a line starts with ':' and has no other ':' before the '!', its nickname is all of `s[1..bang]`. */
  lemma ShapedLineNick(s: string, nick: string, bang: nat, infoEnd: nat, tokenEnd: nat, channelEnd: nat)
    requires FirstFrom(s, '!', 0, bang) && s[0] == ':' && (forall q :: 0 <= q < bang ==> s[q] != ' ')
    requires (forall q :: 1 <= q < bang ==> s[q] != ':') && s[1..bang] == nick
    requires FirstFrom(s, ' ', bang + 1, infoEnd)
    requires FirstFrom(s, ' ', infoEnd + 1, tokenEnd) && s[infoEnd + 1..tokenEnd] == "PRIVMSG"
    requires FirstFrom(s, ' ', tokenEnd + 1, channelEnd)
    ensures Split(s) == Some(Prefix(nick, channelEnd + 1))
  {
    ShapedLineSplits(s, bang, infoEnd, tokenEnd, channelEnd);
    NickStartIs(s, bang, 1);
  }

  /** So a ':' line of that shape with a scalar after the channel's ' ' is classified by that scalar. */
  lemma ShapedLineAccepted(s: string, bang: nat, infoEnd: nat, tokenEnd: nat, channelEnd: nat)
    requires s != [] && s[0] == ':'
    requires FirstFrom(s, '!', 0, bang) && forall q :: 0 <= q < bang ==> s[q] != ' '
    requires FirstFrom(s, ' ', bang + 1, infoEnd)
    requires FirstFrom(s, ' ', infoEnd + 1, tokenEnd) && s[infoEnd + 1..tokenEnd] == "PRIVMSG"
    requires FirstFrom(s, ' ', tokenEnd + 1, channelEnd) && channelEnd + 1 < |s|
    ensures Parse(s) == Emit(s, s[NickStart(s, bang)..bang], channelEnd + 1)
  {
    ShapedLineSplits(s, bang, infoEnd, tokenEnd, channelEnd);
    assert Parse(s) == TextMessage(s);
  }

  /** A piece of `s` that does not hold `c` puts no `c` into `s` either. */
  lemma Avoids(s: string, a: nat, t: string, c: char)
    requires a + |t| <= |s| && s[a..a + |t|] == t
    requires forall q :: 0 <= q < |t| ==> t[q] != c
    ensures forall q :: a <= q < a + |t| ==> s[q] != c
  {
    forall q | a <= q < a + |t|
      ensures s[q] != c
    {
      assert s[q] == t[q - a];
    }
  }

  /**
   * `s` starts with ':' and holds the nickname, '!', the host part, ' ', "PRIVMSG", ' ',
   * the channel and ' ', in that order, with the delimiters at the given positions.
   */
  ghost predicate Delimited(s: string, nick: string, host: string, channel: string,
                            bang: nat, infoEnd: nat, tokenEnd: nat, channelEnd: nat)
  {
    && bang == |nick| + 1 && infoEnd == bang + 1 + |host|
    && tokenEnd == infoEnd + 8 && channelEnd == tokenEnd + 1 + |channel| && channelEnd < |s|
    && s[0] == ':' && s[1..bang] == nick && s[bang] == '!'
    && s[bang + 1..infoEnd] == host && s[infoEnd] == ' '
    && s[infoEnd + 1..tokenEnd] == "PRIVMSG" && s[tokenEnd] == ' '
    && s[tokenEnd + 1..channelEnd] == channel && s[channelEnd] == ' '
  }

  /** A line in the wire format, cut at its delimiters, gives back its fields. */
  lemma WireLineFields(nick: string, host: string, channel: string, sigil: char, body: string)
    returns (bang: nat, infoEnd: nat, tokenEnd: nat, channelEnd: nat, k: nat)
    ensures var s := ":" + nick + "!" + host + " PRIVMSG " + channel + " " + [sigil] + body;
      && Delimited(s, nick, host, channel, bang, infoEnd, tokenEnd, channelEnd)
      && k == channelEnd + 1 && k < |s| && s[k] == sigil && s[k + 1..] == body
  {
    var p1 := ":" + nick;
    var p2 := p1 + "!";
    var p3 := p2 + host;
    var p4 := p3 + " PRIVMSG ";
    var p5 := p4 + channel;
    var p6 := p5 + " ";
    var p7 := p6 + [sigil];
    var s := p7 + body;
    assert s[..|p7|] == p7;
    assert s[..|p6|] == p6;
    assert s[..|p5|] == p5;
    assert s[..|p4|] == p4;
    assert s[..|p3|] == p3;
    assert s[..|p2|] == p2;
    assert s[..|p1|] == p1;
    assert s[|p7|..] == body;
    bang, infoEnd, tokenEnd, channelEnd, k := |p1|, |p3|, |p4| - 1, |p5|, |p6|;
  }

  /**
   * A line cut into fields this way, with a nickname free of ' ', ':' and '!' and a host
   * part and a channel free of ' ', splits into that nickname and the position of the sigil.
   */
  lemma FieldsSplit(s: string, nick: string, host: string, channel: string,
                    bang: nat, infoEnd: nat, tokenEnd: nat, channelEnd: nat)
    requires forall q :: 0 <= q < |nick| ==> nick[q] !in {' ', ':', '!'}
    requires forall q :: 0 <= q < |host| ==> host[q] != ' '
    requires forall q :: 0 <= q < |channel| ==> channel[q] != ' '
    requires Delimited(s, nick, host, channel, bang, infoEnd, tokenEnd, channelEnd)
    ensures Split(s) == Some(Prefix(nick, channelEnd + 1))
  {
    Avoids(s, 1, nick, ' ');
    Avoids(s, 1, nick, '!');
    Avoids(s, 1, nick, ':');
    Avoids(s, bang + 1, host, ' ');
    Avoids(s, infoEnd + 1, "PRIVMSG", ' ');
    Avoids(s, tokenEnd + 1, channel, ' ');
    ShapedLineNick(s, nick, bang, infoEnd, tokenEnd, channelEnd);
  }

  /** How a line in the wire format splits: the nickname is recovered, and the sigil sits at the returned position, with the body after it. */
  lemma WireLineSplit(nick: string, host: string, channel: string, sigil: char, body: string) returns (k: nat)
    requires forall q :: 0 <= q < |nick| ==> nick[q] !in {' ', ':', '!'}
    requires forall q :: 0 <= q < |host| ==> host[q] != ' '
    requires forall q :: 0 <= q < |channel| ==> channel[q] != ' '
    ensures var s := ":" + nick + "!" + host + " PRIVMSG " + channel + " " + [sigil] + body;
      && k < |s| && s[k] == sigil && s[k + 1..] == body
      && Split(s) == Some(Prefix(nick, k))
  {
    var s := ":" + nick + "!" + host + " PRIVMSG " + channel + " " + [sigil] + body;
    var bang, infoEnd, tokenEnd, channelEnd;
    bang, infoEnd, tokenEnd, channelEnd, k := WireLineFields(nick, host, channel, sigil, body);
    FieldsSplit(s, nick, host, channel, bang, infoEnd, tokenEnd, channelEnd);
  }

  /**
   * A line in the wire format gives the nickname and the trimmed body exactly when the
   * scalar after the channel's ' ' is a single byte, and panics otherwise.
   */
  lemma WireLineOutcome(nick: string, host: string, channel: string, sigil: char, body: string)
    requires forall q :: 0 <= q < |nick| ==> nick[q] !in {' ', ':', '!'}
    requires forall q :: 0 <= q < |host| ==> host[q] != ' '
    requires forall q :: 0 <= q < |channel| ==> channel[q] != ' '
    ensures Parse(":" + nick + "!" + host + " PRIVMSG " + channel + " " + [sigil] + body)
         == if IsAscii(sigil) then Ok(UserMessage(MessageInfo(nick, Trim(body)))) else Panic
  {
    var k := WireLineSplit(nick, host, channel, sigil, body);
  }

  /**
   * The wire format round trip: a nickname free of ' ', ':' and '!', a host part and a
   * channel free of ' ', and any body give back the nickname and the trimmed body.
   */
  lemma UserMessageRoundTrip(nick: string, host: string, channel: string, body: string)
    requires forall q :: 0 <= q < |nick| ==> nick[q] !in {' ', ':', '!'}
    requires forall q :: 0 <= q < |host| ==> host[q] != ' '
    requires forall q :: 0 <= q < |channel| ==> channel[q] != ' '
    ensures Parse(":" + nick + "!" + host + " PRIVMSG " + channel + " :" + body)
         == Ok(UserMessage(MessageInfo(nick, Trim(body))))
  {
    var front := ":" + nick + "!" + host + " PRIVMSG " + channel;
    assert front + " :" + body == front + " " + [':'] + body;
    WireLineOutcome(nick, host, channel, ':', body);
  }

  /** A line that ends with the ':' sigil is a user message with an empty body. */
  lemma EmptyBodyAccepted(nick: string, host: string, channel: string)
    requires forall q :: 0 <= q < |nick| ==> nick[q] !in {' ', ':', '!'}
    requires forall q :: 0 <= q < |host| ==> host[q] != ' '
    requires forall q :: 0 <= q < |channel| ==> channel[q] != ' '
    ensures Parse(":" + nick + "!" + host + " PRIVMSG " + channel + " :")
         == Ok(UserMessage(MessageInfo(nick, "")))
  {
    var line := ":" + nick + "!" + host + " PRIVMSG " + channel + " :";
    UserMessageRoundTrip(nick, host, channel, "");
    assert line + "" == line;
  }

  /** The body of the test lines in the source, written as two pieces. */
  const CarkhyText: string := "a function that takes a string " + "and returns the message"

  /** The body of the test lines is already trimmed, and a trailing newline is trimmed away. */
  lemma CarkhyTextTrimmed()
    ensures Trim(CarkhyText) == CarkhyText
    ensures Trim(CarkhyText + "\n") == CarkhyText
  {
    assert |CarkhyText| == 54 && CarkhyText[0] == 'a' && CarkhyText[53] == 'e';
    TrimIsCore(CarkhyText, 0, |CarkhyText|);
    TrimIgnoresPadding([], CarkhyText, "\n");
    assert [] + CarkhyText + "\n" == CarkhyText + "\n";
  }

  /** The line of the first test in the source, written as its parts. */
  lemma CarkhyMessage()
    ensures Parse(":" + "carkhy" + "!" + "carkhy@carkhy.tmi.twitch.tv" + " PRIVMSG " + "#captaincallback" + " :" + CarkhyText)
         == Ok(UserMessage(MessageInfo("carkhy", CarkhyText)))
  {
    UserMessageRoundTrip("carkhy", "carkhy@carkhy.tmi.twitch.tv", "#captaincallback", CarkhyText);
    CarkhyTextTrimmed();
  }

  /** The same line with a trailing newline, which trimming removes. */
  lemma CarkhyMessageWithNewline()
    ensures Parse(":" + "carkhy" + "!" + "carkhy@carkhy.tmi.twitch.tv" + " PRIVMSG " + "#captaincallback" + " :" + (CarkhyText + "\n"))
         == Ok(UserMessage(MessageInfo("carkhy", CarkhyText)))
  {
    UserMessageRoundTrip("carkhy", "carkhy@carkhy.tmi.twitch.tv", "#captaincallback", CarkhyText + "\n");
    CarkhyTextTrimmed();
  }

  /** The ping of the third test in the source. */
  lemma TwitchPing()
    ensures Parse("PING :tmi.twitch.tv") == Ok(PingMessage("tmi.twitch.tv"))
  {
    var s := "PING :tmi.twitch.tv";
    PingNeedsPrefix(s);
    assert s[..6] == "PING :";
    assert s[6..] == "tmi.twitch.tv";
  }

  /** The empty line, a lone ':' and a ping without its ':' all fail. */
  lemma ShortLinesFail()
    ensures Parse("") == Err(UnknownMessageType)
    ensures Parse(":") == Err(UnknownMessageType)
    ensures Parse("PING tmi.twitch.tv") == Err(UnknownMessageType)
  {
    PingNeedsPrefix("PING tmi.twitch.tv");
    assert "PING tmi.twitch.tv"[..6] != "PING :" by {
      assert "PING tmi.twitch.tv"[5] != ':';
    }
    if !Parse(":").Err? {
      var bang, infoEnd, tokenEnd, channelEnd, sigil := LineShape(":");
    }
  }

  /** A JOIN is not a PRIVMSG. */
  lemma JoinFails()
    ensures Parse(":x!y@z JOIN #c") == Err(UnknownMessageType)
  {
    var s := ":x!y@z JOIN #c";
    assert s[6] == ' ' && s[11] == ' ';
    assert s[7..11] == "JOIN";
    OtherCommandFails(s, 2, 6, 11);
  }

  /** A ' ' inside the nickname fails. */
  lemma SpaceInNickFails()
    ensures Parse(":a b!c@d PRIVMSG #e :hi") == Err(UnknownMessageType)
  {
    var s := ":a b!c@d PRIVMSG #e :hi";
    SpaceBeforeNickEndFails(s, 2);
  }

  /** Whatever one-byte scalar follows the channel's ' ' is dropped: here the 'h' of "hello". */
  lemma SigilDropped()
    ensures Parse(":" + "a" + "!" + "b" + " PRIVMSG " + "#c" + " " + ['h'] + "ello")
         == Ok(UserMessage(MessageInfo("a", "ello")))
  {
    WireLineOutcome("a", "b", "#c", 'h', "ello");
    TrimIsCore("ello", 0, 4);
  }

  /** Only ' ' is refused before the '!': a tab stays in the nickname. */
  lemma TabInNickKept()
    ensures Parse(":" + "a\tb" + "!" + "c" + " PRIVMSG " + "#d" + " :" + "e")
         == Ok(UserMessage(MessageInfo("a\tb", "e")))
  {
    UserMessageRoundTrip("a\tb", "c", "#d", "e");
    TrimIsCore("e", 0, 1);
    assert IsWs("a\tb"[1]);
  }

  /** A body whose first scalar is several bytes long, directly after the channel's ' ', panics. */
  lemma WideScalarAfterChannelPanics()
    ensures Parse(":" + "a" + "!" + "b" + " PRIVMSG " + "#c" + " " + ['\U{E9}'] + "t\U{E9}") == Panic
  {
    WireLineOutcome("a", "b", "#c", '\U{E9}', "t\U{E9}");
  }
}
