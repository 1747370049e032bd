# IRC channel logger, modelled in Dafny

The repository holds two small Ruby IRC loggers:

- `ilog.rb` answers keepalive PINGs, flushes after every line, stamps lines in UTC and can be re-targeted by an hourly rotation.
- `irclogger.rb` has no PING branch, no flush and no rotation, and stamps lines in local time with the UTC offset.

Both scripts do four things:

- connect and register with `USER`, `NICK` and `JOIN #channel`;
- choose a log target, which is stdout for the directory `-` and otherwise the append file `{dir}/{server}_{channel}_{YYYY-MM-DD}.txt`;
- log each received line: a channel `PRIVMSG` becomes `<stamp> <nick>: <text>`, and anything else is written as received, followed by a line feed (except that `ilog.rb` answers a PING and does not log it);
- read their options from the command line with a small hand-written parser.

The model keeps the parts of this that are logic and represents everything else as data:

- The clock is a `DateTime` (UTC) or a `LocalTime` (wall time plus an offset in minutes), passed to each operation that reads `Time.now`.
- The connection is the sequence `sent` of framed lines.
- The log targets are a `Target` (stdout or a file path) plus a trace `io` of `FileEvent`s: opened, closed, written, flushed. The invariant `Sink.Consistent` says that exactly the current file is open.

Modules:

- `Text`: string helpers — cutting at one character, `Array#join`, and decimal digits. Nothing in the scripts calls `String#split`; the cut models the lines that Ruby's multiline `^`/`$` anchors see and the space-separated parameters of the `USER` line (`Protocol.UserLineParameters`).
  - `Text.Split` and `Text.Lines` cut a string at every occurrence of a character, keeping empty pieces. A regex with `^`/`$` anchors is tried line by line, first match wins.
  - `Text.LastSep` finds the last position of a separator in a range, which is where a greedy `.*` stops.
- `Clock`: the `%F`, `%T` and `%z` field formatting, with parsers that invert it.
- `Protocol`:
  - message framing and the three registration lines;
  - the two patterns `LPING` and `LREG`;
  - the classification of a received line.
- `Cli`: the `ARGV` loop, the option-name mapping and the help/usage decision. Both scripts carry the same code (`ilog.rb:128-169`, `irclogger.rb:97-133`), so it is modelled once.
- `Sink`: settings after the `dir` default, the target of a date, and the event trace with its invariant.
- `Ilog`: the `Ilog` class as `Ilog.Logger`.
- `IrcLogger`: the `IrcLogger` class as `IrcLogger.Logger`.

Behaviour kept exactly as the code has it:

- `LREG`'s four captures are greedy. Ruby therefore takes the last `" :"` on the line as the start of the text: a message whose text itself contains `" :"` is logged truncated, and what comes before the last `" :"` is absorbed by the nick, user or channel capture, whichever greedy matching stretches. For example `:a!b PRIVMSG #c :x! PRIVMSG #d :y` gives nick `a!b PRIVMSG #c :x`, user empty, channel `#d` and text `y`. `Protocol.PrivmsgGreedy` and `Protocol.PrivmsgTextAfterLastColon` state this.
- `arg.match(/^-/)` tests every line of the argument, not only its start (`Cli.DashLine`).
- A flag followed by `-` takes the value `true`. So `-d -` never selects stdout, and the stdout branch of `determine_target_file` cannot be reached from the command line (`Cli.StdoutSentinelUnreachable`).
- A flag given without a value is `true` and is interpolated as the text `true` (`Sink.Render`).

## Model

| member | source | states |
|---|---|---|
| Protocol.FrameRoundTrip | ilog.rb:99-103 | every sent line is the message followed by CR LF, and removing that terminator gives the message back |
| Protocol.HandshakeIsThreeLines | ilog.rb:44-48 | registration is exactly three lines, in the order `USER`, `NICK`, `JOIN #`; for CR/LF-free nick and channel, each framed line is a single protocol line |
| Protocol.UserLineParameters | ilog.rb:46 | the `USER` line splits at spaces into `USER`, nick, nick+`0`, nick+`1` and `:`+nick |
| Protocol.PingOnLine | ilog.rb:106 | a line matches `LPING` iff it is a case-insensitive `PING` followed by ` :` and the token; the match captures exactly that token |
| Protocol.PrivmsgOnLine | ilog.rb:105 | an `LREG` match on a line is always a channel message |
| Protocol.PrivmsgSound | ilog.rb:105 | any `LREG` match reassembles the line as `:`nick`!`user` PRIVMSG #`channel` :`text |
| Protocol.PrivmsgGreedy | ilog.rb:105 | every line of `:a!b PRIVMSG #c :d` shape is matched, and the captures are the greedy ones: the nick is at least as long as any other split, and so on field by field |
| Protocol.PrivmsgTextAfterLastColon | ilog.rb:105 | the captured text never contains ` :`, because greedy matching cuts at the last one |
| Protocol.ClassifyChat | irclogger.rb:88-92 | a received string is a channel message iff one of its lines matches `LREG`, and then the captures are those of the first line that matches; otherwise it is left alone |
| Protocol.ClassifiedChatShape | irclogger.rb:88-89 | a string classified as a channel message has a line of `:`nick`!`user` PRIVMSG #`channel` :`text shape with the classification's captures |
| Protocol.Classify | ilog.rb:110-121 | a received string is a PING iff one of its lines matches `LPING`, and the token is that of the first line that matches; otherwise it is classified exactly as without the PING branch |
| Protocol.GetsLineClassified | ilog.rb:64-65 | a received line classifies the same with or without the line feed that `gets` leaves on it |
| Protocol.ChatLineClassified | ilog.rb:117 | a one-line channel message received with its line feed is classified by the match on its body |
| Protocol.PingRecognised | ilog.rb:106-110 | `PING :tok` in any letter case, with or without the line feed, is classified as a PING with token `tok` |
| Text.LastSep | ilog.rb:105 | a position found lies in the range and holds the separator |
| Text.LastSepMaximal | ilog.rb:105 | whenever some position in range holds the separator, one is found, and it is at or after every such position — where a greedy `.*` stops |
| Text.GetsLineFirstSegment | ilog.rb:64 | a line without a line feed is a single anchored segment; with the feed, the segment is followed by an empty one |
| Clock.TwoDigitRoundTrip | ilog.rb:118 | a field below 100 is spelled in exactly two zero-padded digits and read back unchanged |
| Clock.DateRoundTrip | ilog.rb:89 | the `%F` spelling of a valid date parses back to that date |
| Clock.DateSpellingInjective | ilog.rb:86-90 | two valid dates have the same `%F` spelling iff they are equal |
| Clock.TimeRoundTrip | ilog.rb:118 | `%T` is eight characters and parses back to the time of day |
| Clock.OffsetRoundTrip | irclogger.rb:89 | `%z` is five characters (sign, hours, minutes) and parses back to the offset |
| Clock.UtcStampRoundTrip | ilog.rb:118 | the `%F %T utc` stamp parses back to the date and time |
| Clock.LocalStampRoundTrip | irclogger.rb:89 | the `%F %z %T` stamp parses back to the date, offset and time |
| Sink.TargetPerDate | ilog.rb:78-94 | with dir `-` the target is stdout; otherwise two derivations give the same file iff they are for the same date |
| Sink.RotationConsistent | ilog.rb:76-94 | closing the previous target (if it was a file) and then opening the new one leaves exactly the new file open |
| Sink.LineConsistent | ilog.rb:117-123 | writing a record, a line feed and an optional flush opens or closes nothing |
| Cli.LeadingDashIsFlag | ilog.rb:133 | an argument that starts with `-` is a flag |
| Cli.TokenizeSound | ilog.rb:132-138 | the tokenised arguments spell back the whole command line, and every flag value is a word not starting a line with `-` |
| Cli.TokenizeUnique | ilog.rb:132-138 | any well-formed flag/positional sequence is the tokenisation of its own words, so the split is unique |
| Cli.FlagsLastWins | ilog.rb:134 | a flag is in the hash iff it occurs; its value is that of its last occurrence |
| Cli.PositionalsArePlain | ilog.rb:135-137 | `rest` holds exactly the non-flag words, none of them starting a line with `-` |
| Cli.ParseArgv | ilog.rb:130-138 | the shift loop builds the flag hash and `rest` of the tokenised command line |
| Cli.Inject | ilog.rb:159-162 | the keys are exactly the option names, each mapped to what its first-letter flag holds |
| Cli.InjectOptionNames | ilog.rb:159-162 | the mapped options are server, port, nick, channel and dir, read from `-s`, `-p`, `-n`, `-c` and `-d` |
| Cli.Decide | ilog.rb:154-167 | help iff `-h` or `--help`; otherwise usage iff one of `-s -p -n -c` is missing; otherwise run with those values and the optional `-d` |
| Cli.NoDashValues | ilog.rb:134 | no flag's text value starts a line with `-` |
| Cli.DashAfterDirIsAFlag | ilog.rb:134 | `-d -` gives `-d` the value `true` and makes `-` a flag of its own |
| Cli.StdoutSentinelUnreachable | ilog.rb:134 | whatever the command line, the dir handed to the logger is never `-` |
| Cli.OnlyShortFlagsMatter | ilog.rb:159-162 | two hashes that agree on `-h --help -s -p -n -c -d` lead to the same outcome |
| Cli.Launch | ilog.rb:128-169 | the script's top level reaches the decision above for the parsed flags, and a run never gets dir `-` |
| Ilog.FileNamePath | ilog.rb:86-92 | the `join('_') + '.txt'` name placed under dir spells `{dir}/{server}_{channel}_{date}.txt` |
| Ilog.DeriveTarget | ilog.rb:80-92 | the `join('_') + '.txt'` name under dir is the `{dir}/{server}_{channel}_{date}.txt` target of that UTC date |
| Ilog.PrivmsgLogged | ilog.rb:117-118 | a channel message is logged as `<%F %T utc> nick: text` with the greedy captures, and the record holds no line feed |
| Ilog.Logger.constructor | ilog.rb:34-48 | dir defaults to `.`; the target of today's date is opened first; then exactly the three framed registration lines of `Protocol.Handshake` (`USER`, `NICK`, `JOIN`) are sent, in order |
| Ilog.Logger.DetermineTargetFile | ilog.rb:72-97 | a previous file target is closed (stdout never is), then stdout or the file of the given date becomes the target, and exactly it is open |
| Ilog.Logger.Send | ilog.rb:99-103 | exactly one CR LF framed line is appended to what was sent |
| Ilog.Logger.ReceiveLine | ilog.rb:108-125 | a PING is answered with `PONG :token` and logs nothing; any other line sends nothing and appends its record, a line feed and a flush to the current target |
| Ilog.Logger.WriteFlushed | ilog.rb:115-124 | the record, a line feed and a flush go to the current target, in that order, and exactly that target stays open |
| Ilog.PingAnswered | ilog.rb:106-113 | `PING :tok` in any letter case sends exactly `PONG :tok` CR LF and leaves the log untouched |
| IrcLogger.TargetPerLocalDate | irclogger.rb:64-72 | the interpolated `{dir}/{server}_{channel}_{date}.txt` target depends only on the date of the local reading: with dir `-` it is stdout; otherwise two valid readings give the same file iff their dates are equal |
| IrcLogger.PrivmsgLogged | irclogger.rb:84-89 | a channel message is logged as `<%F %z %T> nick: text` with the greedy captures, and the record holds no line feed |
| IrcLogger.PingLoggedVerbatim | irclogger.rb:86-93 | without a PING branch, a `PING :tok` line is logged as received, line feed included |
| IrcLogger.Logger.constructor | irclogger.rb:33-45 | dir defaults to `.`; the target of today's local date is derived once and opened; then exactly the three framed registration lines of `Protocol.Handshake` (`USER`, `NICK`, `JOIN`) are sent, in order |
| IrcLogger.Logger.DetermineTargetFile | irclogger.rb:60-76 | a previous file target is closed (stdout never is), then stdout or `{dir}/{server}_{channel}_{local date}.txt` becomes the target, and exactly it is open |
| IrcLogger.Logger.Send | irclogger.rb:78-82 | exactly one CR LF framed line is appended to what was sent |
| IrcLogger.Logger.ReceiveLine | irclogger.rb:86-94 | every line is logged as its record plus a line feed, without a flush, and nothing is ever sent |

## Left out

- The socket (`TCPSocket.open`), `select`, `gets` and the read loop are not modelled. This is network I/O. Each received line is a parameter of `ReceiveLine`. The `break if @con.eof` loop, which spins once the peer closes, is not modelled either.
- The `Rufus::Scheduler` hourly timer is not modelled. It is an external library. Rotation is `Ilog.Logger.DetermineTargetFile`, which callers invoke explicitly.
- `Mutex#synchronize` is not modelled. It only serialises the timer thread against the read loop, and the model is single-threaded.
- `Time.now` and `strftime` are not modelled as a system clock. The time is a parameter, and only the zero-padded fields are formatted.
- Clock: dates are not checked against the calendar (a day 31 is accepted in any month). The `%z` offset is modelled in whole minutes.
- `File.open`, `write`, `close`, `flush` and `$stdout` are not modelled as handles. They are events on a trace, so a failure to open a file is not modelled.
- `puts USAGE` and `exit` are not modelled as side effects. They are the `Help` and `Usage` outcomes, and the usage text is not modelled.
- `@opts[:port].to_i` is not modelled. The port is passed through as given, and a bare `-p` (the value `true`) would raise in Ruby.
- Strings are sequences of characters. Encodings and invalid byte sequences are not modelled.
