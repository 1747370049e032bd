/** ilog.rb: the channel logger with keepalive answers and hourly rotation.
    The socket, the select loop, the scheduler and the mutex are not
    modelled; the connection is the sequence of framed messages sent, the
    log is the trace of file events, and the clock is a UTC reading passed
    to each operation that used `Time.now.utc`. */
module Ilog {
  import opened Wrappers
  import opened Text
  import opened Clock
  import opened Protocol
  import opened Cli
  import opened Sink

  /** ilog.rb's file name: `[server, channel, date].join('_') + '.txt'`. */
  function FileName(server: string, channel: string, date: Date): string
  {
    JoinWith([server, channel, FormatDate(date)], "_") + ".txt"
  }

  /** The joined file name under dir spells the dated log path. */
  lemma FileNamePath(dir: string, server: string, channel: string, date: Date)
    ensures dir + "/" + FileName(server, channel, date) == LogPath(dir, server, channel, date)
  {
    var f := FormatDate(date);
    JoinThree(server, channel, f, "_");
    assert server + "_" + (channel + "_" + f) == server + "_" + channel + "_" + f;
  }

  /** The target `determine_target_file` picks for a UTC date. */
  function DeriveTarget(s: Settings, date: Date): (t: Target)
    ensures t == TargetFor(s, date)
  {
    if s.dir == Str("-") then Stdout
    else
      FileNamePath(Render(s.dir), Render(s.server), Render(s.channel), date);
      File(Render(s.dir) + "/" + FileName(Render(s.server), Render(s.channel), date))
  }

  /** What `receive_line` writes, before its "\n", for a line that is not
      a PING: the stamped `nick: text` of a channel message, or the line as
      received. */
  function Record(l: string, now: DateTime): string
  {
    match ClassifyChat(l)
    case Privmsg(nick, _, _, text) => UtcStamp(now) + " " + nick + ": " + text
    case _ => l
  }

  /** A channel message arriving with its line feed is logged as
      `<date> <time> utc <nick>: <text>`, where nick and text are LREG's
      greedy captures from the line's body; nothing in the record is a line
      feed, so with the "\n" written after it the entry is exactly one line. */
  lemma PrivmsgLogged(body: string, now: DateTime, nick: string, user: string, channel: string, text: string)
    requires '\n' !in body
    requires PrivmsgShape(body, nick, user, channel, text)
    ensures var e := Classify(body + "\n");
      e.Privmsg?
      && PrivmsgShape(body, e.nick, e.user, e.channel, e.text)
      && |nick| <= |e.nick|
      && Record(body + "\n", now) == UtcStamp(now) + " " + e.nick + ": " + e.text
      && '\n' !in e.nick && '\n' !in e.text
  {
    PrivmsgGreedy(body, nick, user, channel, text);
    ChatLineClassified(body);
    PrivmsgSound(body);
  }

  class Logger {
    /** `@opts`, after the dir default. */
    const settings: Settings
    /** `@file`: nil until the first `determine_target_file`. */
    var file: Option<Target>
    /** Everything written to the connection, one framed message per `send`. */
    var sent: seq<string>
    /** What has been done to the log targets, in order. */
    var io: seq<FileEvent>
    /** The UTC date the current target was derived for. */
    ghost var day: Date

    ghost predicate Valid()
      reads this
    {
      file == Some(TargetFor(settings, day)) && Consistent(io, file)
    }

    /** `initialize` up to the read loop: default the dir, derive the
        target, then register with USER, NICK and JOIN. */
    constructor (opts: Options, now: DateTime)
      ensures Valid()
      ensures settings == Settle(opts) && day == now.date
      ensures settings.dir == (if opts.dir == None then Str(".") else opts.dir.value)
      ensures io == OpenEvents(TargetFor(settings, now.date))
      ensures |sent| == 3
      ensures forall i :: 0 <= i < 3 ==> sent[i] == Frame(Handshake(Render(opts.nick), Render(opts.channel))[i])
    {
      settings := Settle(opts);
      file := None;
      sent := [];
      io := [];
      day := now.date;
      new;
      DetermineTargetFile(now);
      assert io == OpenEvents(TargetFor(settings, now.date));
      var nick := Render(settings.nick);
      Send(UserLine(nick));
      assert sent == [Frame(UserLine(nick))];
      Send(NickLine(nick));
      assert sent == [Frame(UserLine(nick)), Frame(NickLine(nick))];
      Send(JoinLine(Render(settings.channel)));
    }

    /** `determine_target_file`, at construction and on every timer tick:
        close the previous target unless it is stdout, then select stdout
        or open the file for the current UTC date. */
    method DetermineTargetFile(now: DateTime)
      requires Consistent(io, file)
      modifies this`file, this`io, this`day
      ensures Valid() && day == now.date
      ensures file == Some(TargetFor(settings, now.date))
      ensures io == old(io) + CloseEvents(old(file)) + OpenEvents(TargetFor(settings, now.date))
    {
      ghost var before := io;
      if file.Some? && file.value != Stdout {
        io := io + [Closed(file.value.path)];
      }
      assert io == before + CloseEvents(file);
      var dir := settings.dir;
      var target := DeriveTarget(settings, now.date);
      if dir == Str("-") {
        file := Some(Stdout);
      } else {
        io := io + [Opened(target.path)];
        file := Some(target);
      }
      day := now.date;
      RotationConsistent(before, old(file), target);
    }

    /** `send`: one message, CR LF terminated. */
    method Send(s: string)
      modifies this`sent
      ensures sent == old(sent) + [Frame(s)]
    {
      sent := sent + [s + "\r\n"];
    }

    /** `receive_line`: a PING is answered with a PONG carrying its token
        and not logged; any other line is logged — a channel message as a
        stamped `nick: text`, anything else verbatim — followed by "\n",
        and the target is flushed. */
    method ReceiveLine(l: string, now: DateTime)
      requires Valid()
      modifies this`sent, this`io
      ensures Valid()
      ensures Classify(l).Ping? ==> sent == old(sent) + [Frame("PONG :" + Classify(l).token)] && io == old(io)
      ensures !Classify(l).Ping? ==>
        (sent == old(sent) && io == old(io) + LineEvents(file.value, Record(l, now), true))
    {
      var ping := MatchPing(l);
      if ping.Some? {
        Send("PONG :" + ping.value);
        return;
      }
      var m := MatchPrivmsg(l);
      var record;
      if m.Some? {
        record := UtcStamp(now) + " " + m.value.nick + ": " + m.value.text;
      } else {
        record := l;
      }
      assert record == Record(l, now);
      WriteFlushed(record);
    }

    /** The synchronized block of `receive_line`: the record, a line feed,
        then a flush of the current target. */
    method WriteFlushed(record: string)
      requires Valid()
      modifies this`io
      ensures Valid()
      ensures io == old(io) + LineEvents(file.value, record, true)
    {
      var t := file.value;
      ghost var before := io;
      io := io + [Wrote(t, record)];
      io := io + [Wrote(t, "\n")];
      io := io + [Flushed(t)];
      LineEventsInTurn(before, t, record);
      LineConsistent(before, file, t, record, true);
    }
  }

  /** A keepalive probe, in any letter case, is answered with exactly one
      line `PONG :<token>` CR LF and leaves the log untouched. */
  method PingAnswered(log: Logger, w: string, token: string, now: DateTime)
    requires log.Valid() && IsPingWord(w) && '\n' !in token
    modifies log`sent, log`io
    ensures log.sent == old(log.sent) + ["PONG :" + token + "\r\n"]
    ensures log.io == old(log.io)
  {
    PingRecognised(w, token);
    log.ReceiveLine(w + " :" + token + "\n", now);
  }
}
