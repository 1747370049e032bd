/** The protocol side shared by both loggers: CR LF framing of outbound
    messages (section 2.3 of RFC 1459), the three registration lines
    (sections 4.1.3, 4.1.2 and 4.2.1), and the two regular expressions that
    recognise a server PING (section 4.6.2) and a channel PRIVMSG
    (section 4.4.1) in an inbound line. */
module Protocol {
  import opened Wrappers
  import opened Text

  // ---------------------------------------------------------------------
  // Outbound framing and the handshake
  // ---------------------------------------------------------------------

  /** `send`: the message followed by CR LF. */
  function Frame(s: string): string
  {
    s + "\r\n"
  }

  /** The receiving side of the framing. */
  function Unframe(f: string): Option<string>
  {
    if |f| >= 2 && f[|f| - 2..] == "\r\n" then Some(f[..|f| - 2]) else None
  }

  /** A framed message that is exactly one protocol line. */
  predicate IsOneLine(f: string)
  {
    Unframe(f).Some? && '\r' !in Unframe(f).value && '\n' !in Unframe(f).value
  }

  /** `USER <user> <host> <server> :<real name>` with the nick in every slot. */
  function UserLine(nick: string): string
  {
    "USER " + nick + " " + nick + "0 " + nick + "1 :" + nick
  }

  function NickLine(nick: string): string
  {
    "NICK " + nick
  }

  function JoinLine(channel: string): string
  {
    "JOIN #" + channel
  }

  /** The messages `initialize` sends, in order. */
  function Handshake(nick: string, channel: string): seq<string>
  {
    [UserLine(nick), NickLine(nick), JoinLine(channel)]
  }

  /** Framing is undone by the receiver. */
  lemma FrameRoundTrip(s: string)
    ensures Unframe(Frame(s)) == Some(s)
  {
    assert Frame(s)[..|s|] == s;
  }

  /** With a nick and channel free of CR and LF, each handshake message goes
      out as exactly one protocol line, and the registration commands come
      in the order USER, NICK, JOIN. */
  lemma HandshakeIsThreeLines(nick: string, channel: string)
    requires '\r' !in nick && '\n' !in nick && '\r' !in channel && '\n' !in channel
    ensures |Handshake(nick, channel)| == 3
    ensures forall i :: 0 <= i < 3 ==> IsOneLine(Frame(Handshake(nick, channel)[i]))
    ensures Handshake(nick, channel)[0][..5] == "USER "
    ensures Handshake(nick, channel)[1][..5] == "NICK "
    ensures Handshake(nick, channel)[2][..6] == "JOIN #"
  {
    var h := Handshake(nick, channel);
    forall i | 0 <= i < 3
      ensures IsOneLine(Frame(h[i]))
    {
      FrameRoundTrip(h[i]);
      assert forall k :: 0 <= k < |h[i]| ==> h[i][k] != '\r' && h[i][k] != '\n';
    }
  }

  /** With a non-empty nick free of spaces, the USER line carries four
      parameters: user name nick, host nick0, server nick1, real name nick. */
  lemma UserLineParameters(nick: string)
    requires nick != [] && ' ' !in nick
    ensures Split(UserLine(nick), ' ') == ["USER", nick, nick + "0", nick + "1", ":" + nick]
  {
    var parts := ["USER", nick, nick + "0", nick + "1", ":" + nick];
    calc {
      JoinWith(parts, " ");
      "USER" + " " + JoinWith(parts[1..], " ");
      "USER" + " " + (nick + " " + JoinWith(parts[2..], " "));
      "USER" + " " + (nick + " " + (nick + "0" + " " + JoinWith(parts[3..], " ")));
      "USER" + " " + (nick + " " + (nick + "0" + " " + (nick + "1" + " " + JoinWith(parts[4..], " "))));
      { assert parts[4..] == [":" + nick]; }
      "USER" + " " + (nick + " " + (nick + "0" + " " + (nick + "1" + " " + (":" + nick))));
      UserLine(nick);
    }
    forall i | 0 <= i < |parts|
      ensures ' ' !in parts[i]
    {
    }
    SplitOfJoin(parts, ' ');
  }

  // ---------------------------------------------------------------------
  // Inbound lines
  // ---------------------------------------------------------------------

  /** What a received line is taken to be. */
  datatype Event =
    | Ping(token: string)
    | Privmsg(nick: string, user: string, channel: string, text: string)
    | Other

  /** "PING" in any mix of upper and lower case. */
  predicate IsPingWord(w: string)
  {
    |w| == 4 && LowerAscii(w[0]) == 'p' && LowerAscii(w[1]) == 'i'
    && LowerAscii(w[2]) == 'n' && LowerAscii(w[3]) == 'g'
  }

  /** `LPING = /^PING :(.*)$/i` against one line: the token is the rest of it. */
  function PingOnLine(line: string): (r: Option<string>)
    ensures r.Some? ==> exists w :: IsPingWord(w) && line == w + " :" + r.value
    ensures forall w, t :: IsPingWord(w) && line == w + " :" + t ==> r == Some(t)
  {
    if |line| >= 6 && IsPingWord(line[..4]) && line[4..6] == " :" then
      assert line == line[..4] + " :" + line[6..];
      Some(line[6..])
    else
      None
  }

  /** `line` splits as LREG's four groups: `:nick!user PRIVMSG #chan :text`. */
  predicate PrivmsgShape(line: string, nick: string, user: string, channel: string, text: string)
  {
    |channel| >= 1 && channel[0] == '#'
    && line == ":" + nick + "!" + user + " PRIVMSG " + channel + " :" + text
  }

  /** Where LREG's three literals sit: `!` at i, ` PRIVMSG #` at j, ` :` at k. */
  datatype Spot = Spot(i: nat, j: nat, k: nat)

  /** The greedy placement of LREG's literals, found from the right. */
  function Locate(line: string): (r: Option<Spot>)
    ensures r.Some? ==> 1 <= r.value.i && r.value.i + 1 <= r.value.j && r.value.j + 10 <= r.value.k <= |line| - 2
  {
    var ok := LastSep(line, " :", 0, |line| - 2);
    if ok.None? then None
    else
      var oj := LastSep(line, " PRIVMSG #", 0, ok.value - 10);
      if oj.None? then None
      else
        var oi := LastSep(line, "!", 1, oj.value - 1);
        if oi.None? then None
        else Some(Spot(oi.value, oj.value, ok.value))
  }

  /** `LREG = /^:(.*)!(.*) PRIVMSG (#.*) :(.*)$/` against one line. The greedy
      groups are found from the right: the text starts after the last " :",
      the channel after the last " PRIVMSG #" that leaves room for it, and
      the nick ends at the last "!" before that. */
  function PrivmsgOnLine(line: string): (r: Option<Event>)
    ensures r.Some? ==> r.value.Privmsg?
  {
    if |line| == 0 || line[0] != ':' then None
    else
      match Locate(line)
      case None => None
      case Some(p) =>
        assert p.i <= p.j <= p.k <= |line|;
        Some(Privmsg(line[1..p.i], line[p.i + 1..p.j], line[p.j + 9..p.k], line[p.k + 2..]))
  }

  /** The literals sit where Locate says. */
  lemma LocateSound(line: string)
    requires Locate(line).Some?
    ensures var p := Locate(line).value;
      SepAt(line, "!", p.i) && SepAt(line, " PRIVMSG #", p.j) && SepAt(line, " :", p.k)
  {
  }

  /** How LREG's match reads off once the three literals are located. */
  lemma LocateIs(line: string, i: nat, j: nat, k: nat)
    requires LastSep(line, " :", 0, |line| - 2) == Some(k)
    requires LastSep(line, " PRIVMSG #", 0, k - 10) == Some(j)
    requires LastSep(line, "!", 1, j - 1) == Some(i)
    ensures Locate(line) == Some(Spot(i, j, k))
  {
  }

  lemma PrivmsgAt(line: string, i: nat, j: nat, k: nat)
    requires |line| >= 1 && line[0] == ':'
    requires Locate(line) == Some(Spot(i, j, k))
    ensures i <= j <= k <= |line|
    ensures PrivmsgOnLine(line) == Some(Privmsg(line[1..i], line[i + 1..j], line[j + 9..k], line[k + 2..]))
  {
  }

  /** LREG matches only a line that starts with ':' and holds its literals. */
  lemma MatchLocated(line: string)
    requires PrivmsgOnLine(line).Some?
    ensures |line| >= 1 && line[0] == ':' && Locate(line).Some?
  {
  }

  /** Every LREG match is sound: its captures and the literals between
      them make up the line, and the channel starts with '#'. */
  lemma PrivmsgSound(line: string)
    requires PrivmsgOnLine(line).Some?
    ensures var m := PrivmsgOnLine(line).value;
      m.Privmsg? && PrivmsgShape(line, m.nick, m.user, m.channel, m.text)
  {
    MatchLocated(line);
    var spot := Locate(line).value;
    var i, j, k := spot.i, spot.j, spot.k;
    PrivmsgAt(line, i, j, k);
    LocateSound(line);
    Reassemble(line, i, j, k);
    var m := Privmsg(line[1..i], line[i + 1..j], line[j + 9..k], line[k + 2..]);
    assert PrivmsgShape(line, m.nick, m.user, m.channel, m.text);
    assert PrivmsgOnLine(line).value == m;
  }

  /** The four captures and the literals between them make up the line. */
  lemma Reassemble(line: string, i: nat, j: nat, k: nat)
    requires |line| >= 1 && line[0] == ':'
    requires 1 <= i && i + 1 <= j && j + 10 <= k
    requires SepAt(line, "!", i) && SepAt(line, " PRIVMSG #", j) && SepAt(line, " :", k)
    ensures PrivmsgShape(line, line[1..i], line[i + 1..j], line[j + 9..k], line[k + 2..])
  {
    assert line[j + 9] == " PRIVMSG #"[9];
    assert line[..1] == ":";
    assert line[i..i + 1] == "!" by {
      assert line[i + 0] == "!"[0];
    }
    assert line[j..j + 9] == " PRIVMSG " by {
      forall m | 0 <= m < 9
        ensures line[j..j + 9][m] == " PRIVMSG "[m]
      {
        assert line[j + m] == " PRIVMSG #"[m];
      }
    }
    assert line[k..k + 2] == " :" by {
      assert line[k + 0] == " :"[0] && line[k + 1] == " :"[1];
    }
    assert line == line[..1] + line[1..i] + line[i..i + 1] + line[i + 1..j] + line[j..j + 9]
                   + line[j + 9..k] + line[k..k + 2] + line[k + 2..];
  }

  /** Where LREG's literals sit in a line of PRIVMSG shape. */
  lemma ShapePositions(line: string, nick: string, user: string, channel: string, text: string)
    requires PrivmsgShape(line, nick, user, channel, text)
    ensures SepAt(line, "!", 1 + |nick|)
    ensures SepAt(line, " PRIVMSG #", 2 + |nick| + |user|)
    ensures SepAt(line, " :", 11 + |nick| + |user| + |channel|)
  {
    SepAtJoin(":" + nick, "!", user + " PRIVMSG " + channel + " :" + text);
    assert line == (":" + nick) + "!" + (user + " PRIVMSG " + channel + " :" + text);
    var rest := channel[1..] + " :" + text;
    assert channel == "#" + channel[1..];
    assert line == (":" + nick + "!" + user) + " PRIVMSG #" + rest;
    SepAtJoin(":" + nick + "!" + user, " PRIVMSG #", rest);
    SepAtJoin(":" + nick + "!" + user + " PRIVMSG " + channel, " :", text);
  }

  /** Given one placement of LREG's literals, the match exists and its
      literals sit at or to the right of that placement. */
  lemma PrivmsgFound(line: string, i': nat, j': nat, k': nat)
    requires |line| >= 1 && line[0] == ':'
    requires 1 <= i' && i' + 1 <= j' && j' + 10 <= k'
    requires SepAt(line, "!", i') && SepAt(line, " PRIVMSG #", j') && SepAt(line, " :", k')
    ensures PrivmsgOnLine(line).Some?
    ensures var m := PrivmsgOnLine(line).value;
      i' - 1 <= |m.nick| && j' - 2 <= |m.nick| + |m.user| && |m.text| <= |line| - k' - 2
  {
    LastSepMaximal(line, " :", 0, |line| - 2, k');
    var k := LastSep(line, " :", 0, |line| - 2).value;
    LastSepMaximal(line, " PRIVMSG #", 0, k - 10, j');
    var j := LastSep(line, " PRIVMSG #", 0, k - 10).value;
    LastSepMaximal(line, "!", 1, j - 1, i');
    var i := LastSep(line, "!", 1, j - 1).value;
    LocateIs(line, i, j, k);
    PrivmsgAt(line, i, j, k);
  }

  /** LREG matches every line of PRIVMSG shape, and its captures are the
      ones Ruby's backtracking settles on first: the longest nick, then the
      longest user, then the longest channel. */
  lemma PrivmsgGreedy(line: string, nick: string, user: string, channel: string, text: string)
    requires PrivmsgShape(line, nick, user, channel, text)
    ensures PrivmsgOnLine(line).Some?
    ensures var m := PrivmsgOnLine(line).value;
      |nick| <= |m.nick|
      && (|nick| == |m.nick| ==> |user| <= |m.user|)
      && (|nick| == |m.nick| && |user| == |m.user| ==> |channel| <= |m.channel|)
  {
    ShapePositions(line, nick, user, channel, text);
    PrivmsgFound(line, 1 + |nick|, 2 + |nick| + |user|, 11 + |nick| + |user| + |channel|);
    PrivmsgSound(line);
    var m := PrivmsgOnLine(line).value;
    assert |line| == 13 + |m.nick| + |m.user| + |m.channel| + |m.text|;
    assert |line| == 13 + |nick| + |user| + |channel| + |text|;
  }

  /** The quirk of the greedy channel group: the logged text never contains
      " :" — everything up to the last " :" of the line goes to the channel. */
  lemma PrivmsgTextAfterLastColon(line: string)
    requires PrivmsgOnLine(line).Some?
    ensures forall p :: !SepAt(PrivmsgOnLine(line).value.text, " :", p)
  {
    MatchLocated(line);
    var spot := Locate(line).value;
    PrivmsgAt(line, spot.i, spot.j, spot.k);
    var text := PrivmsgOnLine(line).value.text;
    assert text == line[spot.k + 2..];
    LocateLastColon(line);
    forall p
      ensures !SepAt(text, " :", p)
    {
      NothingAfterLastColon(line, spot.k, p);
    }
  }

  /** Locate's third literal is the last " :" of the line. */
  lemma LocateLastColon(line: string)
    requires Locate(line).Some?
    ensures LastSep(line, " :", 0, |line| - 2) == Some(Locate(line).value.k)
  {
  }

  /** Past the last " :" of a line, the rest of it holds no " :". */
  lemma NothingAfterLastColon(line: string, k: nat, p: int)
    requires LastSep(line, " :", 0, |line| - 2) == Some(k)
    ensures !SepAt(line[k + 2..], " :", p)
  {
    if SepAt(line[k + 2..], " :", p) {
      assert SepAt(line, " :", k + 2 + p);
      LastSepMaximal(line, " :", 0, |line| - 2, k + 2 + p);
    }
  }

  /** The first line of `lines` on which `f` finds something — the leftmost
      match of a regular expression anchored with `^` and `$`. */
  function FirstSome<T>(lines: seq<string>, f: string -> Option<T>): (r: Option<T>)
    ensures r.Some? ==>
      (exists i :: 0 <= i < |lines| && f(lines[i]) == r && forall j :: 0 <= j < i ==> f(lines[j]).None?)
    ensures r.None? ==> forall i :: 0 <= i < |lines| ==> f(lines[i]).None?
  {
    if lines == [] then None
    else if f(lines[0]).Some? then f(lines[0])
    else
      var r := FirstSome(lines[1..], f);
      if r.Some? then
        ghost var i :| 0 <= i < |lines[1..]| && f(lines[1..][i]) == r
                       && forall j :: 0 <= j < i ==> f(lines[1..][j]).None?;
        assert f(lines[i + 1]) == r && forall j :: 0 <= j < i + 1 ==> f(lines[j]).None?;
        r
      else
        r
  }

  /** `LPING.match(l)`. */
  function MatchPing(l: string): Option<string>
  {
    FirstSome(Lines(l), PingOnLine)
  }

  /** `LREG.match(l)`. */
  function MatchPrivmsg(l: string): Option<Event>
  {
    FirstSome(Lines(l), PrivmsgOnLine)
  }

  /** irclogger.rb's view of a line: a channel message or anything else. */
  function ClassifyChat(l: string): (e: Event)
    ensures e.Privmsg? || e.Other?
    ensures e.Other? <==> forall i :: 0 <= i < |Lines(l)| ==> PrivmsgOnLine(Lines(l)[i]).None?
    ensures e.Privmsg? ==>
      exists i :: 0 <= i < |Lines(l)| && PrivmsgOnLine(Lines(l)[i]) == Some(e)
                  && forall j :: 0 <= j < i ==> PrivmsgOnLine(Lines(l)[j]).None?
  {
    match MatchPrivmsg(l)
    case Some(m) => m
    case None => Other
  }

  /** A channel message is classified only from a line that has LREG's
      shape, with the classification's captures in the shape's places. */
  lemma ClassifiedChatShape(l: string)
    requires ClassifyChat(l).Privmsg?
    ensures var e := ClassifyChat(l);
      exists i :: 0 <= i < |Lines(l)| && PrivmsgShape(Lines(l)[i], e.nick, e.user, e.channel, e.text)
  {
    var e := ClassifyChat(l);
    var i :| 0 <= i < |Lines(l)| && PrivmsgOnLine(Lines(l)[i]) == Some(e);
    PrivmsgSound(Lines(l)[i]);
  }

  /** ilog.rb's view of a line: LPING is tried first. */
  function Classify(l: string): (e: Event)
    ensures e.Ping? <==> exists i :: 0 <= i < |Lines(l)| && PingOnLine(Lines(l)[i]).Some?
    ensures e.Ping? ==>
      exists i :: 0 <= i < |Lines(l)| && PingOnLine(Lines(l)[i]) == Some(e.token)
                  && forall j :: 0 <= j < i ==> PingOnLine(Lines(l)[j]).None?
    ensures !e.Ping? ==> e == ClassifyChat(l)
  {
    match MatchPing(l)
    case Some(t) => Ping(t)
    case None => ClassifyChat(l)
  }

  /** The leftmost match among one line is the match on that line. */
  lemma FirstSomeOne<T>(x: string, f: string -> Option<T>)
    ensures FirstSome([x], f) == f(x)
  {
    assert [x][1..] == [];
  }

  /** A second line that does not match leaves the first line's result. */
  lemma FirstSomeTwo<T>(x: string, y: string, f: string -> Option<T>)
    requires f(y).None?
    ensures FirstSome([x, y], f) == f(x)
  {
    assert [x, y][1..] == [y];
    FirstSomeOne(y, f);
  }

  /** A line as `gets` returns it is classified by its body alone: the
      trailing line feed changes nothing. */
  lemma GetsLineClassified(body: string)
    requires '\n' !in body
    ensures Classify(body + "\n") == Classify(body)
    ensures ClassifyChat(body + "\n") == ClassifyChat(body)
  {
    GetsLineFirstSegment(body);
    assert PingOnLine("").None? && PrivmsgOnLine("").None?;
    FirstSomeOne(body, PingOnLine);
    FirstSomeOne(body, PrivmsgOnLine);
    FirstSomeTwo(body, "", PingOnLine);
    FirstSomeTwo(body, "", PrivmsgOnLine);
    assert MatchPing(body + "\n") == MatchPing(body);
    assert MatchPrivmsg(body + "\n") == MatchPrivmsg(body);
  }

  /** A channel message arriving as one line, with or without its line
      feed, is classified by LREG's captures from that line. */
  lemma ChatLineClassified(body: string)
    requires '\n' !in body && PrivmsgOnLine(body).Some?
    ensures Classify(body + "\n") == PrivmsgOnLine(body).value
    ensures ClassifyChat(body + "\n") == PrivmsgOnLine(body).value
  {
    GetsLineClassified(body);
    GetsLineFirstSegment(body);
    MatchLocated(body);
    assert PingOnLine(body).None? by {
      assert LowerAscii(body[0]) == ':';
    }
    FirstSomeOne(body, PingOnLine);
    FirstSomeOne(body, PrivmsgOnLine);
    assert MatchPing(body) == None;
    assert MatchPrivmsg(body) == PrivmsgOnLine(body);
  }

  /** A keepalive probe `PING :<token>`, in any letter case, with or without
      its line feed, is recognised with the token intact. */
  lemma PingRecognised(w: string, token: string)
    requires IsPingWord(w) && '\n' !in token
    ensures Classify(w + " :" + token) == Ping(token)
    ensures Classify(w + " :" + token + "\n") == Ping(token)
  {
    var body := w + " :" + token;
    assert '\n' !in body by {
      assert forall k :: 0 <= k < |body| ==> body[k] != '\n' by {
        forall k | 0 <= k < |body| ensures body[k] != '\n' {
          if k >= 6 { assert body[k] == token[k - 6]; }
        }
      }
    }
    GetsLineFirstSegment(body);
    assert body[..4] == w && body[4..6] == " :" && body[6..] == token;
    assert PingOnLine(body) == Some(token);
    GetsLineClassified(body);
  }
}
