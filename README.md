# Twitch IRC line classifier, modelled in Dafny

This project models the message classifier of a Twitch chat bot: `MessageType::from_str` in
`chatbot/src/connect/twitch_chat/parsing.rs`. The classifier takes one raw IRC line and gives back one of four outcomes:

- a `PingMessage` carrying the server name, when a line that does not start with ':'
  starts with `PING :`; the server is the rest of the line, verbatim;
- a `UserMessage` carrying a nickname and a body, when a line that starts with ':' has
  the shape that `ParsingProperties.LineShape` states:
  - a first '!' with no ' ' before it; the nickname runs from just past the LAST ':'
    before that '!' up to it, so `:x:a!b PRIVMSG #c :hi` gives the nickname `a`;
  - then three words each ended by the first following ' ': a host part, a command token
    that must be exactly `PRIVMSG`, and a channel;
  - then at least one more scalar, one byte long in UTF-8. That scalar is meant to be the
    ':' sigil of the body, but it is never checked and always dropped:
    `:a!b PRIVMSG #c hello` gives the body `ello`. The body is the rest of the line,
    trimmed;
- a panic, when that scalar after the channel's ' ' is more than one byte long (see
  Findings);
- the single error `UnknownMessageType`, for every other line.

The project has four files:

- `whitespace.dfy` (module `Whitespace`) models `str::trim`. Its `IsWs` is the Unicode
  White_Space property, which is what `char::is_whitespace` tests.
- `parsing.dfy` (module `Parsing`) holds the data types and the operations:
  - `parse_from_str`, `from_ping_message`, `from_text_message` and `from_str`;
  - the five-state scanner of `from_text_message`, written as the method `FromTextMessage`
    with a `while` loop over the scalars of the line;
  - a declarative reading of the same scan (`Split`, then `Emit`, combined as
    `TextMessage`). The method is proved to compute exactly this reading.
- `properties.dfy` (module `ParsingProperties`) proves what the classifier promises. It
  covers dispatch, pings, the shape of every line that is not refused, the nickname and body
  guarantees, round trips of the wire format, truncated lines, and the source's own tests.
- `corrected.dfy` (module `CorrectedBody`) holds the corrected body slice described under
  Findings.

A line is a sequence of Unicode scalar values, and every position is a scalar index.

- The source works on byte offsets.
- Each delimiter it looks for (':', ' ', '!') is one byte in UTF-8. So the slices it takes
  for the nickname and the command token are the scalar slices used here.
- The body slice is the exception. It starts one byte after the start of the scalar that
  follows the channel's ' '. When that scalar is more than one byte long, Rust's `str`
  slicing panics. The model gives this case a third outcome, `Panic`.

## Model

| member | source | states |
|---|---|---|
| Parsing.FromTextMessage | chatbot/src/connect/twitch_chat/parsing.rs:39-97 | the five-state scan returns exactly the declarative outcome `TextMessage(s)`; loop invariant `Scanned` records the delimiters found so far in each state |
| Parsing.ParseFromStr | chatbot/src/connect/twitch_chat/parsing.rs:21-27 | a line starting with ':' goes to the scan, any other line to the ping check; result equals `Parse(s)` |
| Parsing.FromStr | chatbot/src/connect/twitch_chat/parsing.rs:100-105 | `from_str` forwards to `parse_from_str` and gives the same outcome |
| Parsing.FromPingMessage | chatbot/src/connect/twitch_chat/parsing.rs:30-36 | success exactly when the line starts with `PING :`, and then the line is `PING :` followed by the server; it never panics |
| Parsing.StripPrefix | chatbot/src/connect/twitch_chat/parsing.rs:31 | `Some(rest)` means the line is prefix + rest; `None` means the line does not start with the prefix |
| Parsing.FindFrom | chatbot/src/connect/twitch_chat/parsing.rs:53-87 | the scan's search for the next delimiter: the result is the first position at or after `from` holding the scalar, or there is none |
| Parsing.NickStart | chatbot/src/connect/twitch_chat/parsing.rs:57 | the nickname starts just past the last ':' before the '!' (or at 0): no ':' lies between it and the '!' |
| Parsing.Emit | chatbot/src/connect/twitch_chat/parsing.rs:88-92 | with a scalar after the channel's ' ': a message when that scalar is one byte, a panic when it is wider; with no such scalar: an error |
| Parsing.TextMessage | chatbot/src/connect/twitch_chat/parsing.rs:39-97 | a ':' line is never classified as a ping |
| ParsingProperties.DispatchExclusive | chatbot/src/connect/twitch_chat/parsing.rs:21-27 | a ':' line is never a ping; any other line is never a user message and never panics |
| ParsingProperties.PingRoundTrip | chatbot/src/connect/twitch_chat/parsing.rs:30-36 | `PING :` followed by any text is a ping carrying that text verbatim |
| ParsingProperties.PingNeedsPrefix | chatbot/src/connect/twitch_chat/parsing.rs:30-36 | a line without a leading ':' is accepted if and only if it starts with `PING :`; the server is the rest of the line; otherwise the result is the error (the empty line included) |
| ParsingProperties.SplitShape | chatbot/src/connect/twitch_chat/parsing.rs:53-87 | a line that splits has a first '!' with no ' ' before it, then three ' '-ended words with "PRIVMSG" in the middle, and the nickname is the slice from `NickStart` to the '!' |
| ParsingProperties.LineShape | chatbot/src/connect/twitch_chat/parsing.rs:53-96 | a ':' line that is not refused has that shape and a scalar after the channel's ' '; it is a message if and only if that scalar is one byte; the nickname follows a ':' and ends at the first '!'; the body is the trimmed rest of the line after that scalar |
| ParsingProperties.NicknameCharset | chatbot/src/connect/twitch_chat/parsing.rs:56-62 | the nickname of any user message holds no ' ', ':' or '!' |
| ParsingProperties.SpaceBeforeNickEndFails | chatbot/src/connect/twitch_chat/parsing.rs:58 | a ' ' before the first '!' makes a ':' line fail |
| ParsingProperties.OtherCommandFails | chatbot/src/connect/twitch_chat/parsing.rs:72-80 | a command token other than exactly "PRIVMSG" (the empty one included) makes the line fail |
| ParsingProperties.TruncatedLineFails | chatbot/src/connect/twitch_chat/parsing.rs:96 | every prefix of a splitting ':' line that ends at or before the scalar after the channel's ' ' is refused, the empty line included |
| ParsingProperties.BodyIsTrimmed | chatbot/src/connect/twitch_chat/parsing.rs:91 | the body of a user message neither starts nor ends with white space, and trimming it again changes nothing |
| ParsingProperties.ShapedLineSplits | chatbot/src/connect/twitch_chat/parsing.rs:53-87 | the converse of `SplitShape`: a line of that shape splits at those positions |
| ParsingProperties.ShapedLineAccepted | chatbot/src/connect/twitch_chat/parsing.rs:53-93 | a ':' line of that shape, with a scalar after the channel's ' ', is classified by `Emit` at that scalar |
| ParsingProperties.WireLineSplit | chatbot/src/connect/twitch_chat/parsing.rs:53-87 | a line built from a nickname free of ' ', ':' and '!', a host part and a channel free of ' ', any sigil scalar and any body splits back into that nickname and the sigil's position |
| ParsingProperties.WireLineOutcome | chatbot/src/connect/twitch_chat/parsing.rs:53-93 | such a line gives the nickname and the trimmed body when the sigil is one byte, and panics otherwise |
| ParsingProperties.UserMessageRoundTrip | chatbot/src/connect/twitch_chat/parsing.rs:53-93 | `:<nick>!<host> PRIVMSG <channel> :<body>` gives back the nickname and the trimmed body |
| ParsingProperties.EmptyBodyAccepted | chatbot/src/connect/twitch_chat/parsing.rs:88-92 | a line that ends right after the ':' sigil is a user message with an empty body: the body slice starts at the end of the line and is empty, as the test `slice_starting_at_len` expects of `str` slicing |
| ParsingProperties.SigilDropped | chatbot/src/connect/twitch_chat/parsing.rs:88-92 | the one-byte scalar after the channel's ' ' is dropped whatever it is: `:a!b PRIVMSG #c hello` gives the body `ello` |
| ParsingProperties.TabInNickKept | chatbot/src/connect/twitch_chat/parsing.rs:56-63 | only ' ' is refused before the '!': a tab stays in the nickname, so `:a\tb!c PRIVMSG #d :e` gives the nickname `a\tb` |
| ParsingProperties.CarkhyMessage | chatbot/src/connect/twitch_chat/parsing.rs:113-126 | the first test line gives user "carkhy" and the expected text |
| ParsingProperties.CarkhyMessageWithNewline | chatbot/src/connect/twitch_chat/parsing.rs:129-142 | the same line with a trailing "\n" gives the same user and text |
| ParsingProperties.CarkhyTextTrimmed | chatbot/src/connect/twitch_chat/parsing.rs:121 | the expected text is already trimmed, and trimming it with "\n" appended gives it back |
| ParsingProperties.TwitchPing | chatbot/src/connect/twitch_chat/parsing.rs:145-154 | `PING :tmi.twitch.tv` is a ping from `tmi.twitch.tv` |
| ParsingProperties.ShortLinesFail | chatbot/src/connect/twitch_chat/parsing.rs:21-36 | the empty line, a lone ':' and `PING tmi.twitch.tv` are refused |
| ParsingProperties.JoinFails | chatbot/src/connect/twitch_chat/parsing.rs:72-80 | a JOIN line is refused |
| ParsingProperties.SpaceInNickFails | chatbot/src/connect/twitch_chat/parsing.rs:58 | a ' ' inside the nickname makes the line fail |
| ParsingProperties.WideScalarAfterChannelPanics | chatbot/src/connect/twitch_chat/parsing.rs:91 | a line whose first scalar after the channel's ' ' is 'é' (two bytes) panics |
| Whitespace.TrimStart | chatbot/src/connect/twitch_chat/parsing.rs:91 | only white space is dropped from the front, and what is left does not start with white space |
| Whitespace.TrimEnd | chatbot/src/connect/twitch_chat/parsing.rs:91 | only white space is dropped from the back, and what is left does not end with white space |
| Whitespace.Trim | chatbot/src/connect/twitch_chat/parsing.rs:91 | the trimmed string neither starts nor ends with white space |
| Whitespace.TrimStartIsSuffix | chatbot/src/connect/twitch_chat/parsing.rs:91 | what `TrimStart` keeps is a suffix of its argument |
| Whitespace.TrimEndIsPrefix | chatbot/src/connect/twitch_chat/parsing.rs:91 | what `TrimEnd` keeps is a prefix of its argument |
| Whitespace.TrimIsCore | chatbot/src/connect/twitch_chat/parsing.rs:91 | reference definition: the stretch surrounded only by white space, beginning and ending with non-white space, is what `Trim` keeps |
| Whitespace.TrimBounds | chatbot/src/connect/twitch_chat/parsing.rs:91 | `Trim(t)` is a slice `t[a..b]` with only white space outside it |
| Whitespace.TrimIdempotent | chatbot/src/connect/twitch_chat/parsing.rs:91 | trimming twice is trimming once |
| Whitespace.TrimIgnoresPadding | chatbot/src/connect/twitch_chat/parsing.rs:91 | white space added around a string does not change what `Trim` keeps |
| CorrectedBody.EmitCorrected | chatbot/src/connect/twitch_chat/parsing.rs:88-92 | with the whole sigil scalar skipped: a message exactly when there is a scalar after the channel's ' ', and never a panic |
| CorrectedBody.CorrectedRefinesSource | chatbot/src/connect/twitch_chat/parsing.rs:88-92 | the corrected parser never panics, agrees with the source on every line where the source does not panic, and gives a user message where the source panics |
| CorrectedBody.CorrectedRoundTrip | chatbot/src/connect/twitch_chat/parsing.rs:53-93 | with the corrected slice, the wire format gives back the nickname and the trimmed body whatever scalar follows the channel's ' ' |
| CorrectedBody.CorrectedWideScalarAfterChannel | chatbot/src/connect/twitch_chat/parsing.rs:91 | the line on which the source panics gives user "a" and body "tè" with the corrected slice |

## Left out

- `Debug` derives and the `FromStr` trait plumbing: they are not behaviour. `FromStr` is
  modelled as the method that forwards.
- The `to_owned` copies: the model returns values, so there is no borrowing or copying.
- The test `collect_after_skipping_past_the_end` (lines 156-162) exercises
  `Iterator::skip` of the standard library and nothing in the classifier.
- Reading lines from the socket and sending replies: the classifier is only given a line.
- Byte offsets are not modelled. Positions are scalar indices, and the one slice where they
  differ (line 91) is modelled by the `Panic` outcome. The model does not say which panic
  message Rust prints.
- ParsingProperties.NicknameCharset: the nickname is free of ' ', ':' and '!' only. The
  design description of the bot promises a nickname with no white space at all, and says
  the nickname starts after the first ':'. The code refuses only ' ' before the '!'
  (lines 56-63), so a tab or any other white space stays in the nickname
  (`ParsingProperties.TabInNickKept`). It also starts the nickname after the last ':'
  before the '!' (line 57). The model follows the code.
- ParsingProperties.TruncatedLineFails: it is stated for prefixes of lines that split. A
  line that never splits is refused by `LineShape`'s contrapositive.

## Findings

| source | as written | input that shows it | evidently intended | confidence | as-written member | corrected member |
|---|---|---|---|---|---|---|
| chatbot/src/connect/twitch_chat/parsing.rs:91 | the body is `raw_message[(i + 1)..]`, where `i` is the byte offset of the scalar after the channel's ' '; this skips one byte, assuming that scalar is the one-byte ':' sigil | `:a!b PRIVMSG #c étè`: 'é' is two bytes, so the slice would start inside it and `str` slicing panics | skip the whole scalar (`i + codepoint.len_utf8()`); no line makes the classifier panic, and every line it handled before is handled the same way | high (not executed) | ParsingProperties.WideScalarAfterChannelPanics | CorrectedBody.CorrectedRoundTrip |

The main model keeps the source's behaviour (`Parsing.Emit` with its `Panic` outcome), so
every property in `ParsingProperties` is about the code as it is. `CorrectedBody` defines
the corrected classifier `ParseCorrected` and proves three things about it:

- it never panics and agrees with the source wherever the source does not panic
  (`CorrectedRefinesSource`);
- its round trip holds for any sigil scalar (`CorrectedRoundTrip`);
- it accepts the example line (`CorrectedWideScalarAfterChannel`).
