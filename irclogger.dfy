/** irclogger.rb: a logger with no PING branch, no flush and no rotation,
    which stamps lines with local time and its UTC offset. The
    socket and the read loop are not modelled; the clock is a local reading
    passed to each operation that used `Time.now`. */
module IrcLogger {
  import opened Wrappers
  import opened Text
  import opened Clock
  import opened Protocol
  import opened Cli
  import opened Sink

  /** irclogger.rb interpolates `"#{server}_#{channel}_#{date}.txt"` under
      dir, which is `Sink.LogPath` itself, so its target is `Sink.TargetFor`
      of the local date: only the date of a reading picks the file, never
      its time of day or offset. Within a local day the logger keeps one
      target; a different local date gives a different file; with the `-`
      sentinel it is stdout. */
  lemma TargetPerLocalDate(s: Settings, t1: LocalTime, t2: LocalTime)
    requires ValidLocal(t1) && ValidLocal(t2)
    ensures s.dir == Str("-") ==> TargetFor(s, t1.wall.date) == Stdout
    ensures s.dir != Str("-") ==>
      (TargetFor(s, t1.wall.date) == TargetFor(s, t2.wall.date) <==> t1.wall.date == t2.wall.date)
  {
    TargetPerDate(s, t1.wall.date, t2.wall.date);
  }
  /** What `receive_line` writes before its "\n": the stamped `nick: text`
      of a channel message, or the line as received. */
  function Record(l: string, now: LocalTime): string
  {
    match ClassifyChat(l)
    case Privmsg(nick, _, _, text) => LocalStamp(now) + " " + nick + ": " + text
    case _ => l
  }

  /** A channel message is logged as `<date> <offset> <time> <nick>: <text>`
      with LREG's greedy captures, and the record holds no line feed. */
  lemma PrivmsgLogged(body: string, now: LocalTime, nick: string, user: string, channel: string, text: string)
    requires '\n' !in body
    requires PrivmsgShape(body, nick, user, channel, text)
    ensures var e := ClassifyChat(body + "\n");
      e.Privmsg?
      && PrivmsgShape(body, e.nick, e.user, e.channel, e.text)
      && |nick| <= |e.nick|
      && Record(body + "\n", now) == LocalStamp(now) + " " + e.nick + ": " + e.text
      && '\n' !in e.nick && '\n' !in e.text
  {
    PrivmsgGreedy(body, nick, user, channel, text);
    ChatLineClassified(body);
    PrivmsgSound(body);
  }

  /** Without a PING branch a keepalive probe is just another line: it is
      logged verbatim, line feed included. */
  lemma PingLoggedVerbatim(w: string, token: string, now: LocalTime)
    requires IsPingWord(w) && '\n' !in token
    ensures ClassifyChat(w + " :" + token + "\n") == Other
    ensures Record(w + " :" + token + "\n", now) == w + " :" + token + "\n"
  {
    var body := w + " :" + token;
    assert '\n' !in body by {
      forall k | 0 <= k < |body| ensures body[k] != '\n' {
        if k >= 6 { assert body[k] == token[k - 6]; }
      }
    }
    GetsLineClassified(body);
    GetsLineFirstSegment(body);
    assert PrivmsgOnLine(body).None? by {
      assert body[0] == w[0] && LowerAscii(w[0]) == 'p';
    }
    FirstSomeOne(body, PrivmsgOnLine);
    assert MatchPrivmsg(body) == None;
  }

  class Logger {
    /** `@opts`, after the dir default. */
    const settings: Settings
    /** `@file`: nil until `determine_target_file` runs. */
    var file: Option<Target>
    /** Everything written to the connection. */
    var sent: seq<string>
    /** What has been done to the log targets, in order. */
    var io: seq<FileEvent>
    /** The local date the target was derived for. */
    ghost var day: Date

    ghost predicate Valid()
      reads this
    {
      file == Some(TargetFor(settings, day)) && Consistent(io, file)
    }

    /** `initialize` up to the read loop: default the dir, derive the one
        target this logger ever uses, then register with USER, NICK, JOIN. */
    constructor (opts: Options, now: LocalTime)
      ensures Valid()
      ensures settings == Settle(opts) && day == now.wall.date
      ensures settings.dir == (if opts.dir == None then Str(".") else opts.dir.value)
      ensures io == OpenEvents(TargetFor(settings, now.wall.date))
      ensures |sent| == 3
      ensures forall i :: 0 <= i < 3 ==> sent[i] == Frame(Handshake(Render(opts.nick), Render(opts.channel))[i])
    {
      settings := Settle(opts);
      file := None;
      sent := [];
      io := [];
      day := now.wall.date;
      new;
      DetermineTargetFile(now);
      assert io == OpenEvents(TargetFor(settings, now.wall.date));
      var nick := Render(settings.nick);
      Send(UserLine(nick));
      assert sent == [Frame(UserLine(nick))];
      Send(NickLine(nick));
      assert sent == [Frame(UserLine(nick)), Frame(NickLine(nick))];
      Send(JoinLine(Render(settings.channel)));
    }

    /** `determine_target_file`, called once by the constructor: close a
        previous target that exists and is not stdout, then select stdout
        or open `{dir}/{server}_{channel}_{local date}.txt`. */
    method DetermineTargetFile(now: LocalTime)
      requires Consistent(io, file)
      modifies this`file, this`io, this`day
      ensures Valid() && day == now.wall.date
      ensures file == Some(TargetFor(settings, now.wall.date))
      ensures io == old(io) + CloseEvents(old(file)) + OpenEvents(TargetFor(settings, now.wall.date))
    {
      ghost var before := io;
      if file.Some? && file.value != Stdout {
        io := io + [Closed(file.value.path)];
      }
      assert io == before + CloseEvents(file);
      var dir := settings.dir;
      var target := TargetFor(settings, now.wall.date);
      if dir == Str("-") {
        file := Some(Stdout);
      } else {
        io := io + [Opened(target.path)];
        file := Some(target);
      }
      day := now.wall.date;
      RotationConsistent(before, old(file), target);
    }

    /** `send`: one message, CR LF terminated. */
    method Send(s: string)
      modifies this`sent
      ensures sent == old(sent) + [Frame(s)]
    {
      sent := sent + [s + "\r\n"];
    }

    /** `receive_line`: every line is logged — a channel message as a
        stamped `nick: text`, anything else verbatim — followed by "\n";
        nothing is sent and nothing is flushed. */
    method ReceiveLine(l: string, now: LocalTime)
      requires Valid()
      modifies this`io
      ensures Valid() && sent == old(sent)
      ensures io == old(io) + LineEvents(file.value, Record(l, now), false)
    {
      var t := file.value;
      ghost var before := io;
      var m := MatchPrivmsg(l);
      var record;
      if m.Some? {
        record := LocalStamp(now) + " " + m.value.nick + ": " + m.value.text;
      } else {
        record := l;
      }
      assert record == Record(l, now);
      io := io + [Wrote(t, record)];
      io := io + [Wrote(t, "\n")];
      LineEventsInTurn(before, t, record);
      LineConsistent(before, file, t, record, false);
    }
  }
}
