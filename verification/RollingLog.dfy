/**
 The rolling log appender (`src-tauri/src/diagnostics.rs`) over a directory of client logs.

 A log is named by its date and segment, and every creation and every write gives it a newer write
 stamp than any other file has.
 */
module RollingLogs {
  import opened Common

  const MAX_SEGMENT: nat := 4_294_967_295

  type Bytes = seq<bv8>

  datatype Name = Name(date: int, segment: nat)
  datatype LogFile = LogFile(bytes: Bytes, stamp: nat)

  type Directory = map<Name, LogFile>

  datatype Limits = Limits(maxBytes: nat, maxFiles: nat)

  /** The directory beside the appender's fields. */
  datatype Log = Log(files: Directory, date: int, segment: nat, size: nat, nextStamp: nat)

  function Current(log: Log): Name { Name(log.date, log.segment) }

  // ── What each operation does ──────────────────────────────────────────────

  ghost predicate NewestSegment(files: Directory, date: int, segment: nat) {
    && (Name(date, segment) in files || segment == 0)
    && forall name :: name in files && name.date == date ==> name.segment <= segment
  }

  /** The newest segment of a date, or the first one where it has none. */
  ghost function LatestSegment(files: Directory, date: int): (segment: nat)
    ensures NewestSegment(files, date, segment)
    decreases |files|
  {
    if files == map[] then 0
    else
      var name :| name in files;
      var others := files - {name};
      assert others.Keys == files.Keys - {name};
      var rest := LatestSegment(others, date);
      assert files.Keys == others.Keys + {name};
      if name.date == date && name.segment > rest then name.segment else rest
  }

  function SizeOf(files: Directory, name: Name): nat {
    if name in files then |files[name].bytes| else 0
  }

  function NextSegment(segment: nat): nat {
    if segment < MAX_SEGMENT then segment + 1 else MAX_SEGMENT
  }

  /** Open a log for appending, creating it where it is not there. */
  function OpenedFile(log: Log, date: int, segment: nat): Log {
    var name := Name(date, segment);
    if name in log.files then Log(log.files, date, segment, |log.files[name].bytes|, log.nextStamp)
    else Log(log.files[name := LogFile([], log.nextStamp)], date, segment, 0, log.nextStamp + 1)
  }

  ghost function OpenedLatest(log: Log, date: int, limits: Limits): Log {
    var latest := LatestSegment(log.files, date);
    var full := SizeOf(log.files, Name(date, latest)) >= limits.maxBytes;
    OpenedFile(log, date, if full then NextSegment(latest) else latest)
  }

  /** Write stamps are distinct, and the next one is newer than all of them. */
  ghost predicate Stamped(files: Directory, nextStamp: nat) {
    && (forall a, b :: a in files && b in files && a != b ==> files[a].stamp != files[b].stamp)
    && forall a :: a in files ==> files[a].stamp < nextStamp
  }

  ghost predicate IsOldest(files: Directory, current: Name, name: Name) {
    && name in files && name != current
    && forall other :: other in files && other != current ==> files[name].stamp <= files[other].stamp
  }

  /** With more than one log there is an oldest one that is not the current one. */
  lemma {:induction false} SomeOldest(files: Directory, current: Name)
    requires |files| >= 2
    ensures exists name :: IsOldest(files, current, name)
    decreases |files|
  {
    AnotherFile(files, current);
    var name :| name in files && name != current;
    var others := files - {name};
    assert others.Keys == files.Keys - {name} && |others.Keys| == |files.Keys| - 1;
    if |others| >= 2 {
      SomeOldest(others, current);
      var oldest :| IsOldest(others, current, oldest);
      OlderOfTwo(files, current, name, oldest);
    } else {
      var rest :| rest in others.Keys;
      OnlyOne(others.Keys, rest);
      assert files.Keys == {rest, name};
      if rest == current {
        assert IsOldest(files, current, name);
      } else {
        assert IsOldest(others, current, rest);
        OlderOfTwo(files, current, name, rest);
      }
    }
  }

  lemma OnlyOne<T>(s: set<T>, x: T)
    requires |s| == 1 && x in s
    ensures s == {x}
  {
    assert |s - {x}| == 0;
  }

  lemma OlderOfTwo(files: Directory, current: Name, name: Name, oldest: Name)
    requires name in files && name != current && IsOldest(files - {name}, current, oldest)
    ensures IsOldest(files, current, if files[name].stamp <= files[oldest].stamp then name else oldest)
  {
    assert (files - {name}).Keys == files.Keys - {name};
    forall other | other in files && other != name
      ensures other in files - {name}
    {
      assert other in (files - {name}).Keys;
    }
  }

  lemma AnotherFile(files: Directory, current: Name)
    requires |files| >= 2
    ensures exists name :: name in files && name != current
  {
    if current in files {
      assert |files.Keys - {current}| >= 1;
      var name :| name in files.Keys - {current};
    } else {
      assert |files.Keys| >= 1;
      var name :| name in files.Keys;
    }
  }

  ghost function OldestOf(files: Directory, current: Name): (name: Name)
    requires |files| >= 2
    ensures IsOldest(files, current, name)
  {
    SomeOldest(files, current);
    var name :| IsOldest(files, current, name);
    name
  }

  function Without(files: Directory, name: Name): (rest: Directory)
    requires name in files
    ensures |rest| == |files| - 1
  {
    var rest := files - {name};
    assert rest.Keys == files.Keys - {name};
    assert |rest.Keys| == |files.Keys| - 1;
    rest
  }

  /** Remove the oldest logs, never the current one, until there are no more than allowed. */
  ghost function Pruned(files: Directory, current: Name, maxFiles: nat): Directory
    decreases |files|
  {
    if |files| <= maxFiles || |files| < 2 then files
    else Pruned(Without(files, OldestOf(files, current)), current, maxFiles)
  }

  ghost function PrunedLog(log: Log, limits: Limits): Log {
    log.(files := Pruned(log.files, Current(log), limits.maxFiles))
  }

  /** A client start: open the newest log of today, and prune. */
  ghost function Started(log: Log, today: int, limits: Limits): Log {
    PrunedLog(OpenedLatest(log, today, limits), limits)
  }

  ghost function Rotated(log: Log, today: int, limits: Limits): Log {
    if today != log.date then PrunedLog(OpenedLatest(log, today, limits), limits)
    else if log.size >= limits.maxBytes then PrunedLog(OpenedFile(log, log.date, NextSegment(log.segment)), limits)
    else log
  }

  function Min(a: int, b: int): int { if a <= b then a else b }

  /** How much of a buffer one write puts into the current log, which itself takes `accept` bytes of what it is given. */
  function Fitting(size: nat, buffer: Bytes, accept: nat, limits: Limits): (n: nat)
    ensures n <= |buffer|
  {
    var remaining := if size <= limits.maxBytes then limits.maxBytes - size else 0;
    Min(accept, Min(remaining, |buffer|))
  }

  function Appended(log: Log, bytes: Bytes): Log
    requires Current(log) in log.files
  {
    if bytes == [] then log
    else
      log.(files := log.files[Current(log) := LogFile(log.files[Current(log)].bytes + bytes, log.nextStamp)],
           size := log.size + |bytes|, nextStamp := log.nextStamp + 1)
  }

  // ── The appender ──────────────────────────────────────────────────────────

  /** The appender's fields describe its current log. */
  ghost predicate Describes(log: Log) {
    Stamped(log.files, log.nextStamp) && Current(log) in log.files && log.size == |log.files[Current(log)].bytes|
  }

  class RollingAppender {
    const limits: Limits
    var files: Directory
    var currentDate: int
    var currentSegment: nat
    var currentSize: nat
    var nextStamp: nat

    ghost function View(): Log
      reads this
    {
      Log(files, currentDate, currentSegment, currentSize, nextStamp)
    }

    /** A start over what the last client left behind, with limits that have been checked. */
    constructor (log: Log, today: int, limits: Limits)
      requires limits.maxBytes > 0 && limits.maxFiles > 0 && Stamped(log.files, log.nextStamp)
      ensures this.limits == limits && View() == Started(log, today, limits) && Describes(View())
    {
      this.limits := limits;
      files, currentDate, currentSegment, currentSize, nextStamp := log.files, log.date, log.segment, log.size, log.nextStamp;
      new;
      OpenLatest(today);
      PruneOldFiles();
    }

    static method ExistingMax(files: Directory, date: int) returns (segment: nat)
      ensures segment == LatestSegment(files, date)
    {
      segment := 0;
      var names := files.Keys;
      while names != {}
        invariant names <= files.Keys
        invariant Name(date, segment) in files || segment == 0
        invariant forall name :: name in files && name !in names && name.date == date ==> name.segment <= segment
        decreases |names|
      {
        var name :| name in names;
        names := names - {name};
        if name.date == date && name.segment > segment { segment := name.segment; }
      }
      LatestIsUnique(files, date, segment);
    }

    static method FindOldest(files: Directory, current: Name) returns (oldest: Name)
      requires |files| >= 2
      ensures IsOldest(files, current, oldest)
    {
      AnotherFile(files, current);
      oldest :| oldest in files.Keys && oldest != current;
      var names := files.Keys;
      while names != {}
        invariant names <= files.Keys && oldest in files && oldest != current
        invariant forall other :: other in files && other !in names && other != current ==> files[oldest].stamp <= files[other].stamp
        decreases |names|
      {
        var name :| name in names;
        names := names - {name};
        if name != current && files[name].stamp < files[oldest].stamp { oldest := name; }
      }
    }

    method OpenFile(date: int, segment: nat)
      requires Stamped(files, nextStamp)
      modifies this
      ensures View() == OpenedFile(old(View()), date, segment) && Describes(View())
    {
      var name := Name(date, segment);
      if name !in files {
        files := files[name := LogFile([], nextStamp)];
        nextStamp := nextStamp + 1;
      }
      currentDate, currentSegment, currentSize := date, segment, |files[name].bytes|;
    }

    method OpenLatest(date: int)
      requires Stamped(files, nextStamp)
      modifies this
      ensures View() == OpenedLatest(old(View()), date, limits) && Describes(View())
    {
      var segment := ExistingMax(files, date);
      if SizeOf(files, Name(date, segment)) >= limits.maxBytes { segment := NextSegment(segment); }
      OpenFile(date, segment);
    }

    method PruneOldFiles()
      requires Describes(View())
      modifies `files
      ensures View() == PrunedLog(old(View()), limits) && Describes(View())
    {
      var current := Name(currentDate, currentSegment);
      ghost var start := files;
      while |files| > limits.maxFiles && |files| >= 2
        invariant Describes(View())
        invariant Pruned(files, current, limits.maxFiles) == Pruned(start, current, limits.maxFiles)
        decreases |files|
      {
        var oldest := FindOldest(files, current);
        PrunedStep(View(), limits, oldest);
        files := Without(files, oldest);
      }
    }

    method RotateIfNeeded(today: int)
      requires Describes(View())
      modifies this
      ensures View() == Rotated(old(View()), today, limits) && Describes(View())
    {
      if today != currentDate {
        OpenLatest(today);
        PruneOldFiles();
      } else if currentSize >= limits.maxBytes {
        OpenFile(currentDate, NextSegment(currentSegment));
        PruneOldFiles();
      }
    }

    /** Append what fits of a buffer. `accept` is how much the file itself takes of what it is given. */
    method Write(buffer: Bytes, today: int, accept: nat) returns (written: nat)
      requires Describes(View())
      modifies this
      ensures Describes(View())
      ensures (View(), written) == Written(old(View()), buffer, today, accept, limits)
    {
      RotateIfNeeded(today);
      written := Fitting(currentSize, buffer, accept, limits);
      Append(buffer[..written]);
    }

    method Append(bytes: Bytes)
      requires Describes(View())
      modifies `files, `nextStamp, `currentSize
      ensures Describes(View()) && View() == Appended(old(View()), bytes)
    {
      if bytes == [] { return; }
      var name := Name(currentDate, currentSegment);
      files := files[name := LogFile(files[name].bytes + bytes, nextStamp)];
      nextStamp := nextStamp + 1;
      currentSize := currentSize + |bytes|;
    }
  }

  /** One write: rotate, then append what fits. */
  ghost function Written(log: Log, buffer: Bytes, today: int, accept: nat, limits: Limits): (Log, nat) {
    var rotated := Rotated(log, today, limits);
    var n := Fitting(rotated.size, buffer, accept, limits);
    (if Current(rotated) in rotated.files then Appended(rotated, buffer[..n]) else rotated, n)
  }

  lemma LatestIsUnique(files: Directory, date: int, segment: nat)
    requires NewestSegment(files, date, segment)
    ensures segment == LatestSegment(files, date)
  {
    var latest := LatestSegment(files, date);
    assert Name(date, segment) in files ==> segment <= latest;
    assert Name(date, latest) in files ==> latest <= segment;
  }

  /** Removing the oldest log leaves the appender's own alone, and the rest to prune. */
  lemma PrunedStep(log: Log, limits: Limits, oldest: Name)
    requires Describes(log) && |log.files| > limits.maxFiles && |log.files| >= 2
    requires IsOldest(log.files, Current(log), oldest)
    ensures var rest := Without(log.files, oldest);
      && Describes(log.(files := rest))
      && Pruned(rest, Current(log), limits.maxFiles) == Pruned(log.files, Current(log), limits.maxFiles)
  {
    OldestIsUnique(log.files, Current(log), oldest, log.nextStamp);
  }

  lemma OldestIsUnique(files: Directory, current: Name, name: Name, nextStamp: nat)
    requires Stamped(files, nextStamp) && |files| >= 2 && IsOldest(files, current, name)
    ensures name == OldestOf(files, current)
  {
  }
}
