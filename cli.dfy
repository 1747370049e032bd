/** The script entry point shared by ilog.rb and irclogger.rb: the
    `while arg = ARGV.shift` loop that builds the flag hash and the list of
    leftover arguments, the `inject` that maps option names to one-letter
    flags, and the help and required-option checks. Printing the usage text
    and exiting are represented by the outcome value. */
module Cli {
  import opened Wrappers
  import opened Text

  /** A value in the flag hash: Ruby's `true`, or the argument that
      followed the flag. */
  datatype OptValue = True | Str(text: string)

  predicate StartsWithDash(s: string) { |s| > 0 && s[0] == '-' }

  /** `arg.match(/^-/)`. Ruby's `^` anchors at every line start, so an
      argument counts as a flag when any of its lines begins with a dash. */
  predicate DashLine(arg: string)
  {
    AnyStartsWithDash(Lines(arg))
  }

  predicate AnyStartsWithDash(lines: seq<string>)
  {
    lines != [] && (StartsWithDash(lines[0]) || AnyStartsWithDash(lines[1..]))
  }

  /** An argument whose first character is a dash is a flag. */
  lemma LeadingDashIsFlag(arg: string)
    requires StartsWithDash(arg)
    ensures DashLine(arg)
  {
    assert Lines(arg)[0] == [arg[0]] + Split(arg[1..], '\n')[0];
  }

  // ---------------------------------------------------------------------
  // The shift loop, as a sequence of items
  // ---------------------------------------------------------------------

  /** One step of the loop: a flag with its value, or a positional word. */
  datatype Item = Flag(name: string, value: OptValue) | Positional(word: string)

  /** The items the shift loop sees, in order: a flag takes the next
      argument as its value when there is one and it is not itself a flag;
      otherwise its value is `true`. */
  function Tokenize(argv: seq<string>): seq<Item>
    decreases |argv|
  {
    if argv == [] then []
    else if DashLine(argv[0]) then
      if |argv| > 1 && !DashLine(argv[1]) then [Flag(argv[0], Str(argv[1]))] + Tokenize(argv[2..])
      else [Flag(argv[0], True)] + Tokenize(argv[1..])
    else [Positional(argv[0])] + Tokenize(argv[1..])
  }

  /** The arguments an item consumed. */
  function ItemWords(it: Item): seq<string>
  {
    match it
    case Flag(f, True) => [f]
    case Flag(f, Str(v)) => [f, v]
    case Positional(w) => [w]
  }

  function Words(items: seq<Item>): seq<string>
  {
    if items == [] then [] else ItemWords(items[0]) + Words(items[1..])
  }

  /** The local rule the loop obeys at item `i`. */
  predicate ItemOk(items: seq<Item>, i: nat)
    requires i < |items|
  {
    match items[i]
    case Positional(w) => !DashLine(w)
    case Flag(f, Str(v)) => DashLine(f) && !DashLine(v)
    case Flag(f, True) => DashLine(f) && (i + 1 == |items| || items[i + 1].Flag?)
  }

  predicate WellFormed(items: seq<Item>)
  {
    forall i :: 0 <= i < |items| ==> ItemOk(items, i)
  }

  /** Tokenizing consumes every argument exactly once, in order, and obeys
      the loop's rule at every step. */
  lemma {:induction false} TokenizeSound(argv: seq<string>)
    ensures Words(Tokenize(argv)) == argv
    ensures WellFormed(Tokenize(argv))
    decreases |argv|
  {
    if argv != [] {
      var items := Tokenize(argv);
      var tail := if DashLine(argv[0]) && |argv| > 1 && !DashLine(argv[1]) then argv[2..] else argv[1..];
      TokenizeSound(tail);
      assert items == [items[0]] + Tokenize(tail);
      assert items[1..] == Tokenize(tail);
      assert argv == ItemWords(items[0]) + tail;
      forall i | 0 <= i < |items|
        ensures ItemOk(items, i)
      {
        if i > 0 {
          assert ItemOk(Tokenize(tail), i - 1);
        } else if items[0] == Flag(argv[0], True) && |items| > 1 {
          assert Words(Tokenize(tail)) == tail && tail == argv[1..];
          assert Words(items[1..])[0] == argv[1];
          assert DashLine(argv[1]);
          assert ItemWords(items[1])[0] == argv[1];
        }
      }
    }
  }

  /** Tokenize is the only well-formed reading of the argument list: any
      item sequence obeying the loop's rule is what the loop produces from
      its words. */
  lemma {:induction false} TokenizeUnique(items: seq<Item>)
    requires WellFormed(items)
    ensures Tokenize(Words(items)) == items
    decreases |items|
  {
    if items != [] {
      var rest := items[1..];
      assert WellFormed(rest) by {
        forall i | 0 <= i < |rest| ensures ItemOk(rest, i) {
          assert ItemOk(items, i + 1);
        }
      }
      TokenizeUnique(rest);
      assert ItemOk(items, 0);
      var ws := Words(items);
      assert ws == ItemWords(items[0]) + Words(rest);
      match items[0]
      case Positional(w) =>
        assert ws[1..] == Words(rest);
      case Flag(f, Str(v)) =>
        assert ws[2..] == Words(rest);
      case Flag(f, True) =>
        assert ws[1..] == Words(rest);
        if rest != [] {
          assert rest[0].Flag?;
          assert Words(rest) == ItemWords(rest[0]) + Words(rest[1..]);
          assert ws[1] == rest[0].name;
        }
    }
  }

  // ---------------------------------------------------------------------
  // The flag hash and the leftover arguments
  // ---------------------------------------------------------------------

  /** `opts`: each flag set in turn, so a later flag overwrites an earlier one. */
  function Flags(items: seq<Item>): map<string, OptValue>
  {
    if items == [] then map[]
    else
      var prev := Flags(items[..|items| - 1]);
      match items[|items| - 1]
      case Flag(f, v) => prev[f := v]
      case Positional(_) => prev
  }

  /** `rest`: the positional words in order. */
  function Positionals(items: seq<Item>): seq<string>
  {
    if items == [] then []
    else
      var prev := Positionals(items[..|items| - 1]);
      match items[|items| - 1]
      case Flag(_, _) => prev
      case Positional(w) => prev + [w]
  }

  predicate FlagNamed(it: Item, k: string) { it.Flag? && it.name == k }

  /** A flag is in the hash exactly when it occurs, and its value is the
      one given at its last occurrence. */
  lemma {:induction false} FlagsLastWins(items: seq<Item>, k: string)
    ensures k in Flags(items) <==> exists i :: 0 <= i < |items| && FlagNamed(items[i], k)
    ensures k in Flags(items) ==>
      (exists i :: 0 <= i < |items| && items[i] == Flag(k, Flags(items)[k])
                   && forall j :: i < j < |items| ==> !FlagNamed(items[j], k))
    decreases |items|
  {
    if items != [] {
      var n := |items| - 1;
      var prefix := items[..n];
      assert items == prefix + [items[n]];
      StepItem(prefix, items[n]);
      FlagsLastWins(prefix, k);
      if FlagNamed(items[n], k) {
        assert items[n] == Flag(k, Flags(items)[k]);
      } else {
        assert k in Flags(items) <==> k in Flags(prefix);
        if k in Flags(items) {
          var i :| 0 <= i < n && prefix[i] == Flag(k, Flags(prefix)[k])
            && forall j :: i < j < n ==> !FlagNamed(prefix[j], k);
          assert items[i] == prefix[i];
          assert forall j :: i < j < |items| ==> !FlagNamed(items[j], k) by {
            forall j | i < j < |items| ensures !FlagNamed(items[j], k) {
              if j < n { assert items[j] == prefix[j]; }
            }
          }
        } else {
          forall i | 0 <= i < |items| ensures !FlagNamed(items[i], k) {
            if i < n { assert items[i] == prefix[i]; }
          }
        }
      }
    }
  }

  /** The leftover arguments are exactly the positional words, none of
      which looks like a flag. */
  lemma {:induction false} PositionalsArePlain(items: seq<Item>)
    requires WellFormed(items)
    ensures forall w :: w in Positionals(items) ==> !DashLine(w)
    ensures forall w :: w in Positionals(items) <==> Positional(w) in items
    decreases |items|
  {
    if items != [] {
      var n := |items| - 1;
      var prefix := items[..n];
      assert WellFormed(prefix) by {
        forall i | 0 <= i < n ensures ItemOk(prefix, i) {
          assert ItemOk(items, i);
        }
      }
      PositionalsArePlain(prefix);
      assert items == prefix + [items[n]];
      assert ItemOk(items, n);
    }
  }

  /** Appending one item to the items seen so far updates the hash and
      the leftover list as one more turn of the loop does. */
  lemma StepItem(done: seq<Item>, item: Item)
    ensures item.Flag? ==> Flags(done + [item]) == Flags(done)[item.name := item.value]
    ensures item.Flag? ==> Positionals(done + [item]) == Positionals(done)
    ensures item.Positional? ==> Flags(done + [item]) == Flags(done)
    ensures item.Positional? ==> Positionals(done + [item]) == Positionals(done) + [item.word]
  {
    assert (done + [item])[..|done|] == done;
  }

  /** Moving the next item from the arguments left to the items done keeps
      the loop's account of the whole command line. */
  lemma TokenizeAdvance(argv: seq<string>, done: seq<Item>, before: seq<string>, item: Item, args: seq<string>)
    requires done + Tokenize(before) == Tokenize(argv)
    requires Tokenize(before) == [item] + Tokenize(args)
    ensures (done + [item]) + Tokenize(args) == Tokenize(argv)
  {
    assert (done + [item]) + Tokenize(args) == done + ([item] + Tokenize(args));
  }

  /** The first item of a non-empty argument list and what is left after it. */
  lemma TokenizeFirst(args: seq<string>)
    requires args != []
    ensures DashLine(args[0]) && |args| > 1 && !DashLine(args[1]) ==>
      Tokenize(args) == [Flag(args[0], Str(args[1]))] + Tokenize(args[2..])
    ensures DashLine(args[0]) && (|args| == 1 || DashLine(args[1])) ==>
      Tokenize(args) == [Flag(args[0], True)] + Tokenize(args[1..])
    ensures !DashLine(args[0]) ==> Tokenize(args) == [Positional(args[0])] + Tokenize(args[1..])
  {
  }

  /** The `while arg = ARGV.shift` loop. */
  method ParseArgv(argv: seq<string>) returns (opts: map<string, OptValue>, rest: seq<string>)
    ensures opts == Flags(Tokenize(argv))
    ensures rest == Positionals(Tokenize(argv))
  {
    var args := argv;
    ghost var done: seq<Item> := [];
    opts, rest := map[], [];
    while args != []
      invariant done + Tokenize(args) == Tokenize(argv)
      invariant opts == Flags(done) && rest == Positionals(done)
      decreases |args|
    {
      ghost var before := args;
      TokenizeFirst(args);
      var arg := args[0];
      args := args[1..];
      ghost var item: Item;
      if DashLine(arg) {
        if args != [] && !DashLine(args[0]) {
          item := Flag(arg, Str(args[0]));
          opts := opts[arg := Str(args[0])];
          args := args[1..];
          assert before[2..] == args;
        } else {
          item := Flag(arg, True);
          opts := opts[arg := True];
          assert before[1..] == args;
        }
      } else {
        item := Positional(arg);
        rest := rest + [arg];
        assert before[1..] == args;
      }
      assert Tokenize(before) == [item] + Tokenize(args);
      StepItem(done, item);
      TokenizeAdvance(argv, done, before, item, args);
      done := done + [item];
    }
    assert done == Tokenize(argv);
  }

  // ---------------------------------------------------------------------
  // From the flag hash to an outcome
  // ---------------------------------------------------------------------

  /** The hash `Ilog.new` receives, after the `inject`. */
  datatype Options = Options(server: OptValue, port: OptValue, nick: OptValue, channel: OptValue, dir: Option<OptValue>)

  /** `puts USAGE; exit 0`, `puts USAGE; exit 1`, or starting the logger. */
  datatype Outcome = Help | Usage | Run(options: Options)

  const OptionNames: seq<string> := ["server", "port", "nick", "channel", "dir"]

  function Lookup(flags: map<string, OptValue>, key: string): Option<OptValue>
  {
    if key in flags then Some(flags[key]) else None
  }

  /** `"-#{o[0, 1]}"`: a dash and the first character, if there is one. */
  function ShortFlag(name: string): string
  {
    if name == [] then "-" else ['-', name[0]]
  }

  /** The `inject`: every option name, mapped to what its one-letter flag holds. */
  function Inject(names: seq<string>, flags: map<string, OptValue>): (h: map<string, Option<OptValue>>)
    ensures forall n :: n in h <==> n in names
    ensures forall i :: 0 <= i < |names| ==> h[names[i]] == Lookup(flags, ShortFlag(names[i]))
  {
    if names == [] then map[]
    else
      var last := names[|names| - 1];
      var prev := Inject(names[..|names| - 1], flags);
      assert forall n :: n in names <==> n in names[..|names| - 1] || n == last;
      prev[last := Lookup(flags, ShortFlag(last))]
  }

  /** Each option name reads the flag spelled with its first letter. */
  lemma InjectOptionNames(flags: map<string, OptValue>)
    ensures var h := Inject(OptionNames, flags);
      "server" in h && "port" in h && "nick" in h && "channel" in h && "dir" in h
      && h["server"] == Lookup(flags, "-s") && h["port"] == Lookup(flags, "-p")
      && h["nick"] == Lookup(flags, "-n") && h["channel"] == Lookup(flags, "-c")
      && h["dir"] == Lookup(flags, "-d")
  {
    var h := Inject(OptionNames, flags);
    assert h["server"] == Lookup(flags, "-s") by { assert OptionNames[0] == "server" && ShortFlag("server") == "-s"; }
    assert h["port"] == Lookup(flags, "-p") by { assert OptionNames[1] == "port" && ShortFlag("port") == "-p"; }
    assert h["nick"] == Lookup(flags, "-n") by { assert OptionNames[2] == "nick" && ShortFlag("nick") == "-n"; }
    assert h["channel"] == Lookup(flags, "-c") by { assert OptionNames[3] == "channel" && ShortFlag("channel") == "-c"; }
    assert h["dir"] == Lookup(flags, "-d") by { assert OptionNames[4] == "dir" && ShortFlag("dir") == "-d"; }
  }

  /** The checks after parsing: help wins over everything; otherwise
      server, port, nick and channel must be given (a missing dir is fine),
      each taken from its one-letter flag only. */
  function Decide(flags: map<string, OptValue>): (o: Outcome)
    ensures o.Help? <==> ("-h" in flags || "--help" in flags)
    ensures o.Usage? <==>
      (!("-h" in flags || "--help" in flags) && !("-s" in flags && "-p" in flags && "-n" in flags && "-c" in flags))
    ensures o.Run? ==> o.options == Options(flags["-s"], flags["-p"], flags["-n"], flags["-c"], Lookup(flags, "-d"))
  {
    if "-h" in flags || "--help" in flags then Help
    else
      var h := Inject(OptionNames, flags);
      InjectOptionNames(flags);
      if h["server"].Some? && h["port"].Some? && h["channel"].Some? && h["nick"].Some? then
        Run(Options(h["server"].value, h["port"].value, h["nick"].value, h["channel"].value, h["dir"]))
      else
        Usage
  }

  /** No parsed flag ever holds an argument that looks like a flag. */
  lemma NoDashValues(argv: seq<string>, k: string)
    requires k in Flags(Tokenize(argv)) && Flags(Tokenize(argv))[k].Str?
    ensures !DashLine(Flags(Tokenize(argv))[k].text)
  {
    var items := Tokenize(argv);
    TokenizeSound(argv);
    FlagsLastWins(items, k);
    var i :| 0 <= i < |items| && items[i] == Flag(k, Flags(items)[k])
      && forall j :: i < j < |items| ==> !FlagNamed(items[j], k);
    assert ItemOk(items, i);
  }

  /** `-d -` gives the dir flag the value `true`, not `'-'`. */
  lemma DashAfterDirIsAFlag()
    ensures Tokenize(["-d", "-"]) == [Flag("-d", True), Flag("-", True)]
    ensures Flags(Tokenize(["-d", "-"]))["-d"] == True
  {
    LeadingDashIsFlag("-d");
    LeadingDashIsFlag("-");
    var items := Tokenize(["-d", "-"]);
    assert items[..1] == [Flag("-d", True)];
  }

  /** Hence the standard-output sentinel `dir == '-'` can never come from
      the command line. */
  lemma StdoutSentinelUnreachable(argv: seq<string>)
    requires Decide(Flags(Tokenize(argv))).Run?
    ensures Decide(Flags(Tokenize(argv))).options.dir != Some(Str("-"))
  {
    var flags := Flags(Tokenize(argv));
    assert Decide(flags).options.dir == Lookup(flags, "-d");
    if "-d" in flags && flags["-d"] == Str("-") {
      NoDashValues(argv, "-d");
      LeadingDashIsFlag("-");
    }
  }

  /** Long options other than `--help` are ignored: two hashes that agree on
      the flags the script reads lead to the same outcome. */
  lemma OnlyShortFlagsMatter(f1: map<string, OptValue>, f2: map<string, OptValue>)
    requires forall k :: k in ["-h", "--help", "-s", "-p", "-n", "-c", "-d"] ==> Lookup(f1, k) == Lookup(f2, k)
    ensures Decide(f1) == Decide(f2)
  {
    assert Lookup(f1, "-h") == Lookup(f2, "-h");
    assert Lookup(f1, "--help") == Lookup(f2, "--help");
    assert Lookup(f1, "-s") == Lookup(f2, "-s");
    assert Lookup(f1, "-p") == Lookup(f2, "-p");
    assert Lookup(f1, "-n") == Lookup(f2, "-n");
    assert Lookup(f1, "-c") == Lookup(f2, "-c");
    assert Lookup(f1, "-d") == Lookup(f2, "-d");
  }

  /** The whole `if __FILE__ == $0` block up to `Ilog.new(opts)`. */
  method Launch(argv: seq<string>) returns (outcome: Outcome, rest: seq<string>)
    ensures outcome == Decide(Flags(Tokenize(argv)))
    ensures outcome.Run? ==> outcome.options.dir != Some(Str("-"))
    ensures rest == Positionals(Tokenize(argv))
  {
    var opts;
    opts, rest := ParseArgv(argv);
    outcome := Decide(opts);
    if outcome.Run? {
      StdoutSentinelUnreachable(argv);
    }
  }
}
