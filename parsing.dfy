/**
 * The Twitch IRC line classifier of chatbot/src/connect/twitch_chat/parsing.rs.
 *
 * A line is a sequence of Unicode scalar values and every position below is a scalar
 * index. Each delimiter the scanner looks for (':', ' ', '!') is one byte in UTF-8, so a
 * byte offset just past one of them is the scalar index just past it, and every slice the
 * source takes agrees with the scalar slice here, except the body slice, which skips one
 * byte past the start of a scalar: that is modelled by the outcome `Panic`.
 */
module Parsing {
  import opened Whitespace

  datatype Option<T> = None | Some(value: T)

  /** `ParseMessageTypeError`: the single, opaque failure. */
  datatype ParseMessageTypeError = UnknownMessageType

  /** `MessageInfo`: the sender's nickname and the trimmed body of a PRIVMSG. */
  datatype MessageInfo = MessageInfo(user: string, text: string)

  /** `MessageType`: the two kinds of line the bot recognises. */
  datatype MessageType = UserMessage(info: MessageInfo) | PingMessage(server: string)

  /**
   * What one call produces: the `Ok` or `Err` of the Rust `Result`, or `Panic` when the
   * body slice would start inside a multi-byte scalar (which `str` slicing refuses).
   */
  datatype Outcome = Ok(msg: MessageType) | Err(error: ParseMessageTypeError) | Panic

  /** The states of the scan in `from_text_message`. */
  datatype ParsingState = UserName | AdditionalUserInfo | MessageToken | Channel | MessageText

  /** A scalar that UTF-8 encodes in one byte. */
  predicate IsAscii(c: char)
  {
    c as int < 0x80
  }

  /** `str::strip_prefix`: the rest of `s` when `s` begins with `prefix`. */
  function StripPrefix(s: string, prefix: string): (r: Option<string>)
    ensures r.Some? ==> s == prefix + r.value
    ensures r.None? ==> !(|prefix| <= |s| && s[..|prefix|] == prefix)
  {
    if |prefix| <= |s| && s[..|prefix|] == prefix then Some(s[|prefix|..]) else None
  }

  /** `p` is the first position at or after `from` that holds `c`. */
  ghost predicate FirstFrom(s: string, c: char, from: nat, p: nat)
  {
    from <= p < |s| && s[p] == c && forall q :: from <= q < p ==> s[q] != c
  }

  /** The first position at or after `from` that holds `c`, if any. */
  function FindFrom(s: string, c: char, from: nat): (r: Option<nat>)
    ensures r.Some? ==> FirstFrom(s, c, from, r.value)
    ensures r.None? ==> forall q :: from <= q < |s| ==> s[q] != c
    decreases |s| - from
  {
    if from >= |s| then None
    else if s[from] == c then Some(from)
    else FindFrom(s, c, from + 1)
  }

  /** A first occurrence is what `FindFrom` finds. */
  lemma FindFromFirst(s: string, c: char, from: nat, p: nat)
    requires FirstFrom(s, c, from, p)
    ensures FindFrom(s, c, from) == Some(p)
  {
  }

  /** Where the nickname of `s[..end]` starts: just past its last ':', or 0 when it has none. */
  function NickStart(s: string, end: nat): (r: nat)
    requires end <= |s|
    ensures r <= end
    ensures r == 0 || s[r - 1] == ':'
    ensures forall q :: r <= q < end ==> s[q] != ':'
  {
    if end == 0 then 0 else if s[end - 1] == ':' then end else NickStart(s, end - 1)
  }

  /** A position just past a ':', with no ':' from there to `end`, is where the nickname starts. */
  lemma NickStartIs(s: string, end: nat, a: nat)
    requires a <= end <= |s|
    requires a == 0 || s[a - 1] == ':'
    requires forall q :: a <= q < end ==> s[q] != ':'
    ensures NickStart(s, end) == a
  {
  }

  /** `from_ping_message`: a line `PING :<server>` gives `server` verbatim; anything else fails. */
  function FromPingMessage(s: string): (r: Outcome)
    ensures r.Ok? ==> r.msg.PingMessage? && s == "PING :" + r.msg.server
    ensures r.Err? <==> !(6 <= |s| && s[..6] == "PING :")
    ensures !r.Panic?
  {
    match StripPrefix(s, "PING :")
    case Some(server) => Ok(PingMessage(server))
    case None => Err(UnknownMessageType)
  }

  /**
   * What the scan of a ':' line has fixed once it is past the channel: the nickname, and
   * the position of the scalar that follows the ' ' ending the channel (the ':' sigil of
   * the body on a well-formed line; it may be the end of the line).
   */
  datatype Prefix = Prefix(user: string, sigil: nat)

  /**
   * The line split at its delimiters. The nickname runs from just past the last ':' up to
   * the first '!', and no ' ' may come before that '!'; after it come three ' '-terminated
   * words (host part, command token, channel), and the command token must be exactly "PRIVMSG".
   */
  function Split(s: string): (r: Option<Prefix>)
    ensures r.Some? ==> r.value.sigil <= |s|
  {
    match FindFrom(s, '!', 0)
    case None => None
    case Some(bang) =>
      if SpaceBefore(s, bang) then None else AfterNick(s, bang)
  }

  /** Some ' ' comes before position `p`. */
  predicate SpaceBefore(s: string, p: nat)
  {
    match FindFrom(s, ' ', 0)
    case None => false
    case Some(q) => q < p
  }

  /** After the '!' at `bang`: the host part ends at the next ' ', the command token at the one after. */
  function AfterNick(s: string, bang: nat): (r: Option<Prefix>)
    requires bang < |s|
    ensures r.Some? ==> r.value.sigil <= |s|
  {
    match FindFrom(s, ' ', bang + 1)
    case None => None
    case Some(infoEnd) =>
      match FindFrom(s, ' ', infoEnd + 1)
      case None => None
      case Some(tokenEnd) =>
        if s[infoEnd + 1..tokenEnd] != "PRIVMSG" then None
        else AfterCommand(s, bang, tokenEnd)
  }

  /** After the command token that ends at `tokenEnd`: the channel ends at the next ' '. */
  function AfterCommand(s: string, bang: nat, tokenEnd: nat): (r: Option<Prefix>)
    requires bang < |s|
    ensures r.Some? ==> r.value.sigil <= |s|
  {
    match FindFrom(s, ' ', tokenEnd + 1)
    case None => None
    case Some(channelEnd) => Some(Prefix(s[NickStart(s, bang)..bang], channelEnd + 1))
  }

  /**
   * The message whose body follows the scalar at `k`, the first after the channel's ' '.
   * There must be such a scalar. The source slices from the byte after the start of that
   * scalar, which is the start of the next scalar only when this one is a single byte.
   */
  function Emit(s: string, user: string, k: nat): (r: Outcome)
    requires k <= |s|
    ensures r.Ok? <==> k < |s| && IsAscii(s[k])
    ensures r.Panic? <==> k < |s| && !IsAscii(s[k])
  {
    if k == |s| then Err(UnknownMessageType)
    else if IsAscii(s[k]) then Ok(UserMessage(MessageInfo(user, Trim(s[k + 1..]))))
    else Panic
  }

  /** `from_text_message` read declaratively: split the line, then take the body. */
  function TextMessage(s: string): (r: Outcome)
    ensures !(r.Ok? && r.msg.PingMessage?)
  {
    match Split(s)
    case None => Err(UnknownMessageType)
    case Some(p) => Emit(s, p.user, p.sigil)
  }

  /**
   * `parse_from_str` read as a pure function: a line starting with ':' goes to the scan,
   * any other to the ping check. The method `ParseFromStr` is proved equal to it, and the
   * properties of the classifier are stated about it.
   */
  function Parse(s: string): (r: Outcome)
  {
    if s != [] && s[0] == ':' then TextMessage(s) else FromPingMessage(s)
  }

  /** The '!' that ends the nickname was found at `bang`, with no ' ' before it. */
  ghost predicate FoundBang(s: string, bang: nat, userName: string)
  {
    && bang < |s|
    && FindFrom(s, '!', 0) == Some(bang)
    && !SpaceBefore(s, bang)
    && userName == s[NickStart(s, bang)..bang]
  }

  /**
   * What the scan of `from_text_message` knows after the scalars `s[..i]`: in each state,
   * the delimiters found so far, and that what is still to be found lies at or after `i`.
   */
  ghost predicate Scanned(s: string, i: nat, state: ParsingState, marker: nat, userName: string,
                          bang: nat, infoEnd: nat, tokenEnd: nat)
    requires i <= |s|
  {
    match state
    case UserName =>
      && FindFrom(s, '!', 0) == FindFrom(s, '!', i)
      && FindFrom(s, ' ', 0) == FindFrom(s, ' ', i)
      && marker == NickStart(s, i)
    case AdditionalUserInfo =>
      && FoundBang(s, bang, userName) && bang < i
      && FindFrom(s, ' ', bang + 1) == FindFrom(s, ' ', i)
    case MessageToken =>
      && FoundBang(s, bang, userName)
      && FindFrom(s, ' ', bang + 1) == Some(infoEnd) && infoEnd < i
      && marker == infoEnd + 1
      && FindFrom(s, ' ', infoEnd + 1) == FindFrom(s, ' ', i)
    case Channel =>
      && FoundBang(s, bang, userName)
      && FindFrom(s, ' ', bang + 1) == Some(infoEnd)
      && FindFrom(s, ' ', infoEnd + 1) == Some(tokenEnd) && tokenEnd < i
      && s[infoEnd + 1..tokenEnd] == "PRIVMSG"
      && FindFrom(s, ' ', tokenEnd + 1) == FindFrom(s, ' ', i)
    case MessageText =>
      && FoundBang(s, bang, userName)
      && FindFrom(s, ' ', bang + 1) == Some(infoEnd)
      && FindFrom(s, ' ', infoEnd + 1) == Some(tokenEnd)
      && s[infoEnd + 1..tokenEnd] == "PRIVMSG"
      && 0 < i && FindFrom(s, ' ', tokenEnd + 1) == Some(i - 1)
  }

  /** One scalar of the scan in state `UserName` that is not a ' '. */
  lemma UserNameStep(s: string, i: nat, marker: nat)
    requires i < |s| && s[i] != ' '
    requires Scanned(s, i, UserName, marker, [], 0, 0, 0)
    ensures s[i] == ':' ==> Scanned(s, i + 1, UserName, i + 1, [], 0, 0, 0)
    ensures s[i] == '!' ==> marker <= i && Scanned(s, i + 1, AdditionalUserInfo, marker, s[marker..i], i, 0, 0)
    ensures s[i] != ':' && s[i] != '!' ==> Scanned(s, i + 1, UserName, marker, [], 0, 0, 0)
  {
  }

  /** A ' ' met in state `UserName` is a space before the first '!'. */
  lemma UserNameSpace(s: string, i: nat, marker: nat)
    requires i < |s| && s[i] == ' '
    requires Scanned(s, i, UserName, marker, [], 0, 0, 0)
    ensures Split(s) == None
  {
  }

  /** The ' ' that ends the host part starts the command token. */
  lemma InfoStep(s: string, i: nat, marker: nat, userName: string, bang: nat)
    requires i < |s|
    requires Scanned(s, i, AdditionalUserInfo, marker, userName, bang, 0, 0)
    ensures s[i] == ' ' ==> Scanned(s, i + 1, MessageToken, i + 1, userName, bang, i, 0)
    ensures s[i] != ' ' ==> Scanned(s, i + 1, AdditionalUserInfo, marker, userName, bang, 0, 0)
  {
  }

  /** The ' ' that ends the command token: "PRIVMSG" goes on to the channel, anything else fails. */
  lemma TokenStep(s: string, i: nat, marker: nat, userName: string, bang: nat, infoEnd: nat)
    requires i < |s|
    requires Scanned(s, i, MessageToken, marker, userName, bang, infoEnd, 0)
    ensures marker <= i
    ensures s[i] == ' ' && s[marker..i] == "PRIVMSG" ==>
      Scanned(s, i + 1, Channel, marker, userName, bang, infoEnd, i)
    ensures s[i] == ' ' && s[marker..i] != "PRIVMSG" ==> Split(s) == None
    ensures s[i] != ' ' ==> Scanned(s, i + 1, MessageToken, marker, userName, bang, infoEnd, 0)
  {
  }

  /** The ' ' that ends the channel leads to the body. */
  lemma ChannelStep(s: string, i: nat, marker: nat, userName: string, bang: nat, infoEnd: nat, tokenEnd: nat)
    requires i < |s|
    requires Scanned(s, i, Channel, marker, userName, bang, infoEnd, tokenEnd)
    ensures s[i] == ' ' ==> Scanned(s, i + 1, MessageText, marker, userName, bang, infoEnd, tokenEnd)
    ensures s[i] != ' ' ==> Scanned(s, i + 1, Channel, marker, userName, bang, infoEnd, tokenEnd)
  {
  }

  /** The scalar after the channel's ' ' settles the outcome. */
  lemma TextStep(s: string, i: nat, marker: nat, userName: string, bang: nat, infoEnd: nat, tokenEnd: nat)
    requires i < |s|
    requires Scanned(s, i, MessageText, marker, userName, bang, infoEnd, tokenEnd)
    ensures Split(s) == Some(Prefix(userName, i))
  {
  }

  /** A scan that reaches the end of the line without emitting fails. */
  lemma ScanEnd(s: string, state: ParsingState, marker: nat, userName: string, bang: nat, infoEnd: nat, tokenEnd: nat)
    requires Scanned(s, |s|, state, marker, userName, bang, infoEnd, tokenEnd)
    ensures TextMessage(s) == Err(UnknownMessageType)
  {
  }

  /** `from_text_message`: the five-state scan, which returns as soon as it knows the answer. */
  method FromTextMessage(s: string) returns (r: Outcome)
    ensures r == TextMessage(s)
  {
    var state := UserName;
    var userName: string := [];
    var marker: nat := 0;
    ghost var bang: nat, infoEnd: nat, tokenEnd: nat := 0, 0, 0;
    var i := 0;
    while i < |s|
      invariant i <= |s|
      invariant Scanned(s, i, state, marker, userName, bang, infoEnd, tokenEnd)
    {
      var c := s[i];
      match state {
        case UserName =>
          if c == ' ' {
            UserNameSpace(s, i, marker);
            return Err(UnknownMessageType);
          }
          UserNameStep(s, i, marker);
          if c == ':' {
            marker := i + 1;
          } else if c == '!' {
            userName := s[marker..i];
            state := AdditionalUserInfo;
            bang := i;
          }
        case AdditionalUserInfo =>
          InfoStep(s, i, marker, userName, bang);
          if c == ' ' {
            marker := i + 1;
            state := MessageToken;
            infoEnd := i;
          }
        case MessageToken =>
          TokenStep(s, i, marker, userName, bang, infoEnd);
          if c == ' ' {
            if s[marker..i] == "PRIVMSG" {
              state := Channel;
              tokenEnd := i;
            } else {
              return Err(UnknownMessageType);
            }
          }
        case Channel =>
          ChannelStep(s, i, marker, userName, bang, infoEnd, tokenEnd);
          if c == ' ' {
            state := MessageText;
          }
        case MessageText =>
          TextStep(s, i, marker, userName, bang, infoEnd, tokenEnd);
          if IsAscii(c) {
            return Ok(UserMessage(MessageInfo(userName, Trim(s[i + 1..]))));
          } else {
            return Panic;
          }
      }
      i := i + 1;
    }
    ScanEnd(s, state, marker, userName, bang, infoEnd, tokenEnd);
    return Err(UnknownMessageType);
  }

  /** `parse_from_str`, running the scan for a ':' line and the ping check otherwise. */
  method ParseFromStr(s: string) returns (r: Outcome)
    ensures r == Parse(s)
  {
    if s != [] && s[0] == ':' {
      r := FromTextMessage(s);
    } else {
      r := FromPingMessage(s);
    }
  }

  /** `FromStr::from_str`, which forwards to `parse_from_str`. */
  method FromStr(s: string) returns (r: Outcome)
    ensures r == Parse(s)
  {
    r := ParseFromStr(s);
  }
}
