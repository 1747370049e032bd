/** Where the loggers write. Real handles are replaced by a target value and
    a trace of what was done to files: opened for append, closed, written,
    flushed. Standard output is a target that is never opened or closed. */
module Sink {
  import opened Wrappers
  import opened Clock
  import opened Cli

  datatype Target = Stdout | File(path: string)

  datatype FileEvent =
    | Opened(path: string)
    | Closed(path: string)
    | Wrote(target: Target, data: string)
    | Flushed(target: Target)

  /** The options a logger keeps, after `@opts[:dir] ||= '.'`. */
  datatype Settings = Settings(server: OptValue, port: OptValue, nick: OptValue, channel: OptValue, dir: OptValue)

  /** The constructors' `@opts[:dir] ||= '.'`. */
  function Settle(o: Options): Settings
  {
    Settings(o.server, o.port, o.nick, o.channel, if o.dir.None? then Str(".") else o.dir.value)
  }

  /** An option value as string interpolation or Array#join spells it. */
  function Render(v: OptValue): string
  {
    match v
    case True => "true"
    case Str(s) => s
  }

  /** `{dir}/{server}_{channel}_{YYYY-MM-DD}.txt`. */
  function LogPath(dir: string, server: string, channel: string, date: Date): string
  {
    dir + "/" + server + "_" + channel + "_" + FormatDate(date) + ".txt"
  }

  /** The target chosen for a date: standard output for the `'-'` sentinel,
      otherwise the dated file under the log directory. */
  function TargetFor(s: Settings, date: Date): Target
  {
    if s.dir == Str("-") then Stdout
    else File(LogPath(Render(s.dir), Render(s.server), Render(s.channel), date))
  }

  /** Re-deriving the target is idempotent within a day and moves to a new
      file when the date changes; with the sentinel it is always stdout. */
  lemma TargetPerDate(s: Settings, d1: Date, d2: Date)
    requires ValidDate(d1) && ValidDate(d2)
    ensures s.dir == Str("-") ==> TargetFor(s, d1) == Stdout
    ensures s.dir != Str("-") ==> (TargetFor(s, d1) == TargetFor(s, d2) <==> d1 == d2)
  {
    if s.dir != Str("-") && TargetFor(s, d1) == TargetFor(s, d2) {
      var prefix := Render(s.dir) + "/" + Render(s.server) + "_" + Render(s.channel) + "_";
      var f1, f2 := FormatDate(d1), FormatDate(d2);
      assert LogPath(Render(s.dir), Render(s.server), Render(s.channel), d1) == prefix + f1 + ".txt";
      assert LogPath(Render(s.dir), Render(s.server), Render(s.channel), d2) == prefix + f2 + ".txt";
      assert |f1| == |f2|;
      assert f1 == (prefix + f1 + ".txt")[|prefix|..|prefix| + |f1|];
      assert f2 == (prefix + f2 + ".txt")[|prefix|..|prefix| + |f2|];
      DateSpellingInjective(d1, d2);
    }
  }

  /** `@file.close if @file and @file != $stdout`. */
  function CloseEvents(previous: Option<Target>): seq<FileEvent>
  {
    match previous
    case Some(File(p)) => [Closed(p)]
    case _ => []
  }

  /** `File.open(path, 'a')`, or nothing for standard output. */
  function OpenEvents(t: Target): seq<FileEvent>
  {
    match t
    case File(p) => [Opened(p)]
    case Stdout => []
  }

  /** The file at `path` is open after the events `io`: its last open or
      close event is an open. */
  function IsOpen(io: seq<FileEvent>, path: string): bool
  {
    if io == [] then false
    else
      var e := io[|io| - 1];
      if e == Opened(path) then true
      else if e == Closed(path) then false
      else IsOpen(io[..|io| - 1], path)
  }

  /** At most one file is open, and it is the current target. */
  ghost predicate Consistent(io: seq<FileEvent>, file: Option<Target>)
  {
    (forall p :: IsOpen(io, p) ==> file == Some(File(p)))
    && (file.Some? && file.value.File? ==> IsOpen(io, file.value.path))
  }

  lemma IsOpenSnoc(io: seq<FileEvent>, e: FileEvent, p: string)
    ensures IsOpen(io + [e], p) == if e == Opened(p) then true else if e == Closed(p) then false else IsOpen(io, p)
  {
    assert (io + [e])[..|io|] == io;
  }

  /** Writes and flushes open and close nothing. */
  lemma {:induction false} IsOpenAfterWrites(io: seq<FileEvent>, more: seq<FileEvent>, p: string)
    requires forall i :: 0 <= i < |more| ==> more[i].Wrote? || more[i].Flushed?
    ensures IsOpen(io + more, p) == IsOpen(io, p)
    decreases |more|
  {
    if more != [] {
      var init, last := more[..|more| - 1], more[|more| - 1];
      assert forall i :: 0 <= i < |init| ==> init[i] == more[i];
      IsOpenAfterWrites(io, init, p);
      assert io + more == (io + init) + [last];
      assert last != Opened(p) && last != Closed(p);
      IsOpenSnoc(io + init, last, p);
    } else {
      assert io + more == io;
    }
  }

  /** Closing the previous target (unless it is stdout) and opening the new
      one leaves exactly the new target open. */
  lemma RotationConsistent(io: seq<FileEvent>, previous: Option<Target>, next: Target)
    requires Consistent(io, previous)
    ensures Consistent(io + CloseEvents(previous) + OpenEvents(next), Some(next))
  {
    var closed := io + CloseEvents(previous);
    forall p
      ensures !IsOpen(closed, p)
    {
      if previous.Some? && previous.value.File? {
        assert closed == io + [Closed(previous.value.path)];
        IsOpenSnoc(io, Closed(previous.value.path), p);
      } else {
        assert closed == io;
      }
    }
    var after := closed + OpenEvents(next);
    forall p
      ensures IsOpen(after, p) <==> next == File(p)
    {
      if next.File? {
        assert after == closed + [Opened(next.path)];
        IsOpenSnoc(closed, Opened(next.path), p);
      } else {
        assert after == closed;
      }
    }
  }

  /** The events of logging one line: the record, its line feed and, when
      asked for, a flush. */
  function LineEvents(t: Target, record: string, flush: bool): seq<FileEvent>
  {
    [Wrote(t, record), Wrote(t, "\n")] + (if flush then [Flushed(t)] else [])
  }

  /** The events of one line, written one call at a time. */
  lemma LineEventsInTurn(io: seq<FileEvent>, t: Target, record: string)
    ensures io + [Wrote(t, record)] + [Wrote(t, "\n")] + [Flushed(t)] == io + LineEvents(t, record, true)
    ensures io + [Wrote(t, record)] + [Wrote(t, "\n")] == io + LineEvents(t, record, false)
  {
  }

  /** Logging a line keeps the open files as they were. */
  lemma LineConsistent(io: seq<FileEvent>, file: Option<Target>, t: Target, record: string, flush: bool)
    requires Consistent(io, file)
    ensures Consistent(io + LineEvents(t, record, flush), file)
  {
    WritesConsistent(io, file, LineEvents(t, record, flush));
  }

  /** Writing to the current target keeps the open files as they were. */
  lemma WritesConsistent(io: seq<FileEvent>, file: Option<Target>, more: seq<FileEvent>)
    requires Consistent(io, file)
    requires forall i :: 0 <= i < |more| ==> more[i].Wrote? || more[i].Flushed?
    ensures Consistent(io + more, file)
  {
    forall p
      ensures IsOpen(io + more, p) == IsOpen(io, p)
    {
      IsOpenAfterWrites(io, more, p);
    }
  }
}
