/** What survives of a rolling log over any number of client starts and writes. */
module RollingLogRuns {
  import opened Common
  import opened RollingLogs

  ghost predicate Before(a: Name, b: Name) {
    a.date < b.date || (a.date == b.date && a.segment < b.segment)
  }

  /** The surviving logs in the order they were created, everything ever written, and what pruning dropped of it. */
  datatype Book = Book(order: seq<Name>, written: Bytes, dropped: Bytes)

  ghost function BytesOf(files: Directory, name: Name): Bytes {
    if name in files then files[name].bytes else []
  }

  ghost function Joined(files: Directory, order: seq<Name>): Bytes {
    if order == [] then []
    else Joined(files, order[..|order| - 1]) + BytesOf(files, order[|order| - 1])
  }

  ghost predicate Ordered(order: seq<Name>) {
    forall i, j :: 0 <= i < j < |order| ==> Before(order[i], order[j])
  }

  ghost function Members(order: seq<Name>): set<Name> {
    set i | 0 <= i < |order| :: order[i]
  }

  ghost predicate StampsRise(files: Directory, order: seq<Name>, nextStamp: nat)
    requires files.Keys == Members(order)
  {
    && (forall i, j :: 0 <= i < j < |order| ==> StampOf(files, order[i]) < StampOf(files, order[j]))
    && forall i :: 0 <= i < |order| ==> StampOf(files, order[i]) < nextStamp
  }

  function StampOf(files: Directory, name: Name): int {
    if name in files then files[name].stamp else -1
  }

  ghost predicate Fits(files: Directory, order: seq<Name>, limits: Limits) {
    forall i :: 0 <= i < |order| ==> SizeOf(files, order[i]) <= limits.maxBytes
  }

  /** The directory holds exactly the listed logs, oldest first by name and by write stamp, none over the limit. */
  ghost predicate Listed(files: Directory, order: seq<Name>, nextStamp: nat, limits: Limits) {
    && Ordered(order)
    && files.Keys == Members(order)
    && StampsRise(files, order, nextStamp)
    && Fits(files, order, limits)
  }

  ghost predicate Dated(order: seq<Name>, date: int) {
    forall i :: 0 <= i < |order| ==> order[i].date <= date && order[i].segment <= MAX_SEGMENT
  }

  ghost predicate Kept(log: Log, book: Book, limits: Limits) {
    && limits.maxBytes > 0 && limits.maxFiles > 0
    && Listed(log.files, book.order, log.nextStamp, limits)
    && book.written == book.dropped + Joined(log.files, book.order)
    && Dated(book.order, log.date)
  }

  /** The appender writes to the last of the logs. */
  ghost predicate AtLast(log: Log, book: Book) {
    && book.order != [] && book.order[|book.order| - 1] == Current(log)
    && Current(log) in log.files && log.size == |log.files[Current(log)].bytes|
  }

  ghost predicate Running(log: Log, book: Book, limits: Limits) {
    Kept(log, book, limits) && AtLast(log, book) && |book.order| <= limits.maxFiles
  }

  // ── The book each operation keeps ─────────────────────────────────────────

  ghost function OpenedBook(book: Book, files: Directory, name: Name): Book {
    if name in files then book else book.(order := book.order + [name])
  }

  /** Pruning drops the oldest logs. */
  ghost function PrunedBook(book: Book, files: Directory, maxFiles: nat): Book {
    var excess := if |book.order| > maxFiles then |book.order| - maxFiles else 0;
    Book(book.order[excess..], book.written, book.dropped + Joined(files, book.order[..excess]))
  }

  ghost function StartedBook(book: Book, log: Log, today: int, limits: Limits): Book {
    var ready := OpenedLatest(log, today, limits);
    PrunedBook(OpenedBook(book, log.files, Current(ready)), ready.files, limits.maxFiles)
  }

  ghost function RotatedBook(book: Book, log: Log, today: int, limits: Limits): Book {
    if today != log.date then StartedBook(book, log, today, limits)
    else if log.size >= limits.maxBytes then
      var ready := OpenedFile(log, log.date, NextSegment(log.segment));
      PrunedBook(OpenedBook(book, log.files, Current(ready)), ready.files, limits.maxFiles)
    else book
  }

  ghost function WrittenBook(book: Book, log: Log, buffer: Bytes, today: int, accept: nat, limits: Limits): Book {
    var rotated := RotatedBook(book, log, today, limits);
    rotated.(written := rotated.written + buffer[..Written(log, buffer, today, accept, limits).1])
  }

  // ── Joining ───────────────────────────────────────────────────────────────

  lemma {:induction false} JoinedSame(files: Directory, other: Directory, order: seq<Name>)
    requires forall i :: 0 <= i < |order| ==> BytesOf(files, order[i]) == BytesOf(other, order[i])
    ensures Joined(files, order) == Joined(other, order)
  {
    if order != [] { JoinedSame(files, other, order[..|order| - 1]); }
  }

  lemma JoinedSnoc(files: Directory, order: seq<Name>, last: Name)
    ensures Joined(files, order + [last]) == Joined(files, order) + BytesOf(files, last)
  {
    assert (order + [last])[..|order|] == order;
  }

  lemma {:induction false} JoinedSum(files: Directory, a: seq<Name>, b: seq<Name>)
    ensures Joined(files, a + b) == Joined(files, a) + Joined(files, b)
  {
    if b == [] {
      assert a + b == a;
    } else {
      var front, last := b[..|b| - 1], b[|b| - 1];
      JoinedSum(files, a, front);
      JoinedSnoc(files, a + front, last);
      JoinedSnoc(files, front, last);
      assert b == front + [last] && a + b == (a + front) + [last];
      Regrouped(Joined(files, a), Joined(files, front), BytesOf(files, last));
    }
  }

  lemma JoinedFirst(files: Directory, order: seq<Name>)
    requires order != []
    ensures Joined(files, order) == BytesOf(files, order[0]) + Joined(files, order[1..])
  {
    JoinedSum(files, [order[0]], order[1..]);
    JoinedOne(files, order[0]);
    assert order == [order[0]] + order[1..];
  }

  lemma JoinedOne(files: Directory, name: Name)
    ensures Joined(files, [name]) == BytesOf(files, name)
  {
    assert [name][..0] == [];
  }

  // ── Opening ───────────────────────────────────────────────────────────────

  /** A name after the last log is no log's yet, and comes after every one. */
  lemma NothingAfterLast(files: Directory, order: seq<Name>, nextStamp: nat, limits: Limits, name: Name)
    requires Listed(files, order, nextStamp, limits)
    requires order != [] ==> Before(order[|order| - 1], name)
    ensures name !in files && forall i :: 0 <= i < |order| ==> Before(order[i], name)
  {
    assert name in files <==> name in Members(order);
    forall i | 0 <= i < |order|
      ensures Before(order[i], name)
    {
      if i < |order| - 1 { assert Before(order[i], order[|order| - 1]); }
    }
  }

  lemma MembersAppend(order: seq<Name>, name: Name)
    ensures Members(order + [name]) == Members(order) + {name}
  {
    var longer := order + [name];
    forall other | other in Members(order) + {name}
      ensures other in Members(longer)
    {
      if other == name {
        assert longer[|order|] == name;
      } else {
        var i :| 0 <= i < |order| && order[i] == other;
        assert longer[i] == other;
      }
    }
  }

  lemma ListedAppend(files: Directory, order: seq<Name>, stamp: nat, limits: Limits, name: Name)
    requires Listed(files, order, stamp, limits)
    requires name !in files && forall i :: 0 <= i < |order| ==> Before(order[i], name)
    ensures Listed(files[name := LogFile([], stamp)], order + [name], stamp + 1, limits)
  {
    var more, longer := files[name := LogFile([], stamp)], order + [name];
    MembersAppend(order, name);
    forall i | 0 <= i < |order|
      ensures longer[i] == order[i] && order[i] in Members(order)
      ensures StampOf(more, longer[i]) == StampOf(files, order[i]) && SizeOf(more, longer[i]) == SizeOf(files, order[i])
    {
    }
    assert longer[|order|] == name;
  }

  /** Opening the last log again, or a new one after all of them. */
  lemma OpenKeeps(log: Log, book: Book, date: int, segment: nat, limits: Limits)
    requires Kept(log, book, limits) && log.date <= date && segment <= MAX_SEGMENT
    requires book.order != [] ==> book.order[|book.order| - 1] == Name(date, segment) || Before(book.order[|book.order| - 1], Name(date, segment))
    ensures var ready := OpenedFile(log, date, segment);
      Kept(ready, OpenedBook(book, log.files, Name(date, segment)), limits)
      && AtLast(ready, OpenedBook(book, log.files, Name(date, segment)))
  {
    var name, order := Name(date, segment), book.order;
    if order == [] || order[|order| - 1] != name {
      NothingAfterLast(log.files, order, log.nextStamp, limits, name);
      NewFileKeeps(log, book, date, segment, limits);
    } else {
      assert order[|order| - 1] in Members(order);
    }
  }

  lemma NewFileKeeps(log: Log, book: Book, date: int, segment: nat, limits: Limits)
    requires Kept(log, book, limits) && log.date <= date && segment <= MAX_SEGMENT
    requires Name(date, segment) !in log.files
    requires forall i :: 0 <= i < |book.order| ==> Before(book.order[i], Name(date, segment))
    ensures var name := Name(date, segment); var ready := OpenedFile(log, date, segment);
      Kept(ready, book.(order := book.order + [name]), limits) && AtLast(ready, book.(order := book.order + [name]))
  {
    var name, order := Name(date, segment), book.order;
    ListedAppend(log.files, order, log.nextStamp, limits, name);
    JoinedAppend(log.files, order, name, LogFile([], log.nextStamp));
    assert Dated(order + [name], date);
    assert book.dropped + (Joined(log.files, order) + []) == book.written;
    assert (order + [name])[|order|] == name;
  }

  lemma JoinedAppend(files: Directory, order: seq<Name>, name: Name, file: LogFile)
    requires name !in files && files.Keys == Members(order)
    ensures Joined(files[name := file], order + [name]) == Joined(files, order) + file.bytes
  {
    forall i | 0 <= i < |order|
      ensures BytesOf(files[name := file], order[i]) == BytesOf(files, order[i])
    {
      assert order[i] in Members(order);
    }
    JoinedSame(files, files[name := file], order);
    assert (order + [name])[..|order|] == order;
  }

  /** What the newest log of a date is, where the logs are listed. */
  lemma LatestIsLast(log: Log, book: Book, today: int, limits: Limits)
    requires Kept(log, book, limits) && log.date <= today
    ensures var latest := LatestSegment(log.files, today);
      && latest <= MAX_SEGMENT
      && (Name(today, latest) in log.files ==> book.order != [] && book.order[|book.order| - 1] == Name(today, latest))
      && (Name(today, latest) !in log.files ==> latest == 0 && forall i :: 0 <= i < |book.order| ==> book.order[i].date < today)
  {
    var latest := LatestSegment(log.files, today);
    var name := Name(today, latest);
    if name in log.files {
      assert name in Members(book.order);
      var i :| 0 <= i < |book.order| && book.order[i] == name;
      var last := book.order[|book.order| - 1];
      assert last in Members(book.order) && last in log.files && !Before(name, last);
    }
  }

  lemma OpenLatestKeeps(log: Log, book: Book, today: int, limits: Limits)
    requires Kept(log, book, limits) && log.date <= today
    ensures var ready := OpenedLatest(log, today, limits); var after := OpenedBook(book, log.files, Current(ready));
      Kept(ready, after, limits) && AtLast(ready, after)
  {
    LatestIsLast(log, book, today, limits);
    var latest := LatestSegment(log.files, today);
    var full := SizeOf(log.files, Name(today, latest)) >= limits.maxBytes;
    OpenKeeps(log, book, today, if full then NextSegment(latest) else latest, limits);
  }

  // ── Pruning ───────────────────────────────────────────────────────────────

  lemma ListedCount(files: Directory, order: seq<Name>, nextStamp: nat, limits: Limits)
    requires Listed(files, order, nextStamp, limits)
    ensures |files| == |order|
  {
    DistinctNames(order);
    assert |files.Keys| == |files|;
  }

  lemma {:induction false} DistinctNames(order: seq<Name>)
    requires Ordered(order)
    ensures |Members(order)| == |order|
  {
    if order != [] {
      var before, last := order[..|order| - 1], order[|order| - 1];
      DistinctNames(before);
      assert Members(order) == Members(before) + {last};
      forall i | 0 <= i < |before|
        ensures before[i] != last
      {
        assert Before(order[i], last);
      }
    }
  }

  /** The oldest log that is not the current one is the first of them. */
  lemma OldestIsFirst(files: Directory, order: seq<Name>, nextStamp: nat, limits: Limits)
    requires Listed(files, order, nextStamp, limits) && |order| >= 2 && |files| == |order|
    ensures OldestOf(files, order[|order| - 1]) == order[0]
  {
    var current := order[|order| - 1];
    var oldest := OldestOf(files, current);
    assert Before(order[0], current);
    assert order[0] in Members(order) && oldest in Members(order);
    var i :| 0 <= i < |order| && order[i] == oldest;
    assert StampOf(files, oldest) <= StampOf(files, order[0]);
  }

  lemma ListedRest(files: Directory, order: seq<Name>, nextStamp: nat, limits: Limits)
    requires Listed(files, order, nextStamp, limits) && order != [] && order[0] in files
    ensures Listed(Without(files, order[0]), order[1..], nextStamp, limits)
    ensures forall i :: 1 <= i < |order| ==> BytesOf(Without(files, order[0]), order[i]) == BytesOf(files, order[i])
  {
    var first, rest, others := order[0], Without(files, order[0]), order[1..];
    forall i | 0 <= i < |others|
      ensures others[i] == order[i + 1] && others[i] != first && others[i] in Members(order)
    {
      assert Before(first, order[i + 1]);
    }
    forall name | name in Members(order) && name != first
      ensures name in Members(others)
    {
      var i :| 0 <= i < |order| && order[i] == name;
      assert others[i - 1] == name;
    }
    assert Members(others) == Members(order) - {first};
    assert rest.Keys == Members(others);
    forall i | 0 <= i < |others|
      ensures StampOf(rest, others[i]) == StampOf(files, order[i + 1]) && SizeOf(rest, others[i]) == SizeOf(files, order[i + 1])
      ensures BytesOf(rest, order[i + 1]) == BytesOf(files, order[i + 1])
    {
      assert others[i] in rest.Keys;
    }
    forall i | 1 <= i < |order|
      ensures BytesOf(rest, order[i]) == BytesOf(files, order[i])
    {
      assert others[i - 1] in rest.Keys;
    }
  }

  lemma JoinedRest(files: Directory, rest: Directory, order: seq<Name>)
    requires order != [] && forall i :: 1 <= i < |order| ==> BytesOf(rest, order[i]) == BytesOf(files, order[i])
    ensures Joined(files, order) == BytesOf(files, order[0]) + Joined(rest, order[1..])
  {
    JoinedFirst(files, order);
    JoinedSame(files, rest, order[1..]);
  }

  lemma DropFirst(log: Log, book: Book, limits: Limits)
    requires Kept(log, book, limits) && AtLast(log, book) && |book.order| >= 2 && book.order[0] in log.files
    ensures var rest := log.(files := Without(log.files, book.order[0]));
      var after := Book(book.order[1..], book.written, book.dropped + BytesOf(log.files, book.order[0]));
      Kept(rest, after, limits) && AtLast(rest, after)
  {
    var rest := Without(log.files, book.order[0]);
    ListedRest(log.files, book.order, log.nextStamp, limits);
    JoinedRest(log.files, rest, book.order);
    Regrouped(book.dropped, BytesOf(log.files, book.order[0]), Joined(rest, book.order[1..]));
    LastSurvives(log, book);
    assert Dated(book.order[1..], log.date);
  }

  /** The current log is not the oldest of several. */
  lemma LastSurvives(log: Log, book: Book)
    requires AtLast(log, book) && Ordered(book.order) && |book.order| >= 2 && book.order[0] in log.files
    ensures AtLast(log.(files := Without(log.files, book.order[0])), book.(order := book.order[1..]))
  {
    assert Before(book.order[0], book.order[|book.order| - 1]);
  }

  lemma {:induction false} PruneKeeps(log: Log, book: Book, limits: Limits)
    requires Kept(log, book, limits) && AtLast(log, book)
    ensures Running(PrunedLog(log, limits), PrunedBook(book, log.files, limits.maxFiles), limits)
    decreases |book.order|
  {
    ListedCount(log.files, book.order, log.nextStamp, limits);
    if |book.order| <= limits.maxFiles {
      assert book.order[0..] == book.order && book.order[..0] == [];
      assert PrunedBook(book, log.files, limits.maxFiles) == book.(dropped := book.dropped + []);
    } else {
      assert book.order[0] in Members(book.order);
      OldestIsFirst(log.files, book.order, log.nextStamp, limits);
      DropFirst(log, book, limits);
      var first := book.order[0];
      var rest := log.(files := Without(log.files, first));
      var after := Book(book.order[1..], book.written, book.dropped + BytesOf(log.files, first));
      ListedRest(log.files, book.order, log.nextStamp, limits);
      PruneKeeps(rest, after, limits);
      PruneBookStep(log, book, rest, after, limits);
    }
  }

  lemma PruneBookStep(log: Log, book: Book, rest: Log, after: Book, limits: Limits)
    requires 0 < limits.maxFiles < |book.order|
    requires after == Book(book.order[1..], book.written, book.dropped + BytesOf(log.files, book.order[0]))
    requires forall i :: 1 <= i < |book.order| ==> BytesOf(rest.files, book.order[i]) == BytesOf(log.files, book.order[i])
    ensures PrunedBook(after, rest.files, limits.maxFiles) == PrunedBook(book, log.files, limits.maxFiles)
  {
    var excess := |book.order| - limits.maxFiles;
    assert book.order[1..][excess - 1..] == book.order[excess..];
    assert book.order[1..][..excess - 1] == book.order[1..excess];
    JoinedSame(log.files, rest.files, book.order[1..excess]);
    JoinedFirst(log.files, book.order[..excess]);
    assert book.order[..excess][1..] == book.order[1..excess];
    Regrouped(book.dropped, BytesOf(log.files, book.order[0]), Joined(log.files, book.order[1..excess]));
  }

  // ── Starting, rotating, writing ───────────────────────────────────────────

  lemma StartKeeps(log: Log, book: Book, today: int, limits: Limits)
    requires Kept(log, book, limits) && log.date <= today
    ensures Running(Started(log, today, limits), StartedBook(book, log, today, limits), limits)
    ensures Started(log, today, limits).date == today
  {
    OpenLatestKeeps(log, book, today, limits);
    var ready := OpenedLatest(log, today, limits);
    PruneKeeps(ready, OpenedBook(book, log.files, Current(ready)), limits);
  }

  lemma RotateKeeps(log: Log, book: Book, today: int, limits: Limits)
    requires Running(log, book, limits) && log.date <= today
    ensures Running(Rotated(log, today, limits), RotatedBook(book, log, today, limits), limits)
    ensures Rotated(log, today, limits).date == today
  {
    if today != log.date {
      StartKeeps(log, book, today, limits);
    } else if log.size >= limits.maxBytes {
      var segment := NextSegment(log.segment);
      OpenKeeps(log, book, log.date, segment, limits);
      PruneKeeps(OpenedFile(log, log.date, segment), OpenedBook(book, log.files, Name(log.date, segment)), limits);
    }
  }

  /**
   Which log a start opens: the newest of the day exactly when it has room, as it is, and otherwise the next one, empty;
   only past the last segment there is does a full log stay open.
   */
  lemma StartOpens(log: Log, today: int, latest: nat, limits: Limits)
    requires NewestSegment(log.files, today, latest) && limits.maxBytes > 0 && latest <= 4_294_967_295
    ensures var after := Started(log, today, limits); var name := Name(today, latest);
      var size := if name in log.files then |log.files[name].bytes| else 0;
      && after.date == today
      && (after.segment == latest <==> size < limits.maxBytes || latest == 4_294_967_295)
      && (after.segment == latest ==> after.size == size)
      && (after.segment != latest ==> after.segment == latest + 1 && after.size == 0)
  {
    LatestIsUnique(log.files, today, latest);
    assert Name(today, latest + 1) !in log.files;
  }

  /** Which log a write goes to: the one it has until the day changes or that one is full, and then a new, empty one. */
  lemma RotatesIff(log: Log, book: Book, today: int, limits: Limits)
    requires Running(log, book, limits) && log.date <= today
    ensures var after := Rotated(log, today, limits);
      && (today == log.date && log.size < limits.maxBytes ==> after == log)
      && (today == log.date && log.size >= limits.maxBytes && log.segment < 4_294_967_295 ==>
            Current(after) == Name(today, log.segment + 1) && after.size == 0)
      && (today == log.date && log.segment == 4_294_967_295 ==> Current(after) == Current(log) && after.size == log.size)
      && (today > log.date ==> Current(after) == Name(today, 0) && after.size == 0)
  {
    if today != log.date {
      LatestIsLast(log, book, today, limits);
      assert Name(today, LatestSegment(log.files, today)) !in log.files;
    } else if log.size >= limits.maxBytes && log.segment < 4_294_967_295 {
      NothingAfterLast(log.files, book.order, log.nextStamp, limits, Name(today, log.segment + 1));
    } else if log.segment == 4_294_967_295 {
      assert Current(log) in log.files;
    }
  }

  /** `n` is as much of the buffer as the limit and the file itself take. */
  ghost predicate FitsBest(n: nat, size: nat, buffer: Bytes, accept: nat, limits: Limits) {
    && n <= |buffer| && n <= accept && size + n <= limits.maxBytes
    && (n == |buffer| || n == accept || size + n == limits.maxBytes)
  }

  /** The bytes go behind those of the current log, and nothing else changes. */
  ghost predicate PutBehind(before: Log, bytes: Bytes, after: Log) {
    && Current(after) == Current(before) && Current(before) in before.files && after.files.Keys == before.files.Keys
    && after.files[Current(before)].bytes == before.files[Current(before)].bytes + bytes
    && (forall name :: name in before.files && name != Current(before) ==> after.files[name] == before.files[name])
    && after.size == before.size + |bytes|
  }

  lemma AppendedPuts(log: Log, bytes: Bytes)
    requires Current(log) in log.files
    ensures PutBehind(log, bytes, Appended(log, bytes))
  {
    if bytes == [] { assert log.files[Current(log)].bytes + bytes == log.files[Current(log)].bytes; }
  }

  /** What a write puts where: as much as fits, behind what was there. */
  lemma WritePutsWhatFits(log: Log, book: Book, buffer: Bytes, today: int, accept: nat, limits: Limits)
    requires Running(log, book, limits) && log.date <= today
    ensures var (after, n) := Written(log, buffer, today, accept, limits); var rotated := Rotated(log, today, limits);
      FitsBest(n, rotated.size, buffer, accept, limits) && PutBehind(rotated, buffer[..n], after)
  {
    RotateKeeps(log, book, today, limits);
    var rotated := Rotated(log, today, limits);
    WithinLimit(rotated, RotatedBook(book, log, today, limits), limits);
    AppendedPuts(rotated, buffer[..Fitting(rotated.size, buffer, accept, limits)]);
  }

  lemma WithinLimit(log: Log, book: Book, limits: Limits)
    requires Running(log, book, limits)
    ensures Current(log) in log.files && log.size <= limits.maxBytes
  {
    assert SizeOf(log.files, book.order[|book.order| - 1]) <= limits.maxBytes;
  }

  lemma AppendKeeps(log: Log, book: Book, bytes: Bytes, limits: Limits)
    requires Running(log, book, limits) && log.size + |bytes| <= limits.maxBytes
    ensures Running(Appended(log, bytes), book.(written := book.written + bytes), limits)
  {
    if bytes != [] {
      var file := LogFile(log.files[Current(log)].bytes + bytes, log.nextStamp);
      AppendGrows(log, bytes, file);
      GrownKeeps(log, book, file, bytes, limits);
      StillRunning(Appended(log, bytes), book.(written := book.written + bytes), limits);
    }
  }

  lemma GrownKeeps(log: Log, book: Book, file: LogFile, bytes: Bytes, limits: Limits)
    requires Running(log, book, limits) && log.size + |bytes| <= limits.maxBytes
    requires file == LogFile(log.files[Current(log)].bytes + bytes, log.nextStamp)
    ensures var files := log.files[Current(log) := file];
      Listed(files, book.order, log.nextStamp + 1, limits) && book.written + bytes == book.dropped + Joined(files, book.order)
  {
    ListedGrown(log.files, book.order, log.nextStamp, limits, file);
    JoinedGrown(log.files, book.order, file, bytes);
    Regrouped(book.dropped, Joined(log.files, book.order), bytes);
  }

  lemma StillRunning(log: Log, book: Book, limits: Limits)
    requires limits.maxBytes > 0 && 0 < limits.maxFiles && |book.order| <= limits.maxFiles
    requires Listed(log.files, book.order, log.nextStamp, limits) && Dated(book.order, log.date)
    requires book.written == book.dropped + Joined(log.files, book.order) && AtLast(log, book)
    ensures Running(log, book, limits)
  {
  }

  lemma AppendGrows(log: Log, bytes: Bytes, file: LogFile)
    requires bytes != [] && Current(log) in log.files && log.size == |log.files[Current(log)].bytes|
    requires file == LogFile(log.files[Current(log)].bytes + bytes, log.nextStamp)
    ensures var after := Appended(log, bytes);
      after.files == log.files[Current(log) := file] && after.nextStamp == log.nextStamp + 1 && after.date == log.date
      && Current(after) == Current(log) && after.size == |file.bytes|
  {
  }

  lemma ListedGrown(files: Directory, order: seq<Name>, stamp: nat, limits: Limits, file: LogFile)
    requires Listed(files, order, stamp, limits) && order != [] && file.stamp == stamp && |file.bytes| <= limits.maxBytes
    ensures Listed(files[order[|order| - 1] := file], order, stamp + 1, limits)
  {
    var last := order[|order| - 1];
    var after := files[last := file];
    assert last in Members(order);
    assert after.Keys == files.Keys;
    forall i | 0 <= i < |order| - 1
      ensures StampOf(after, order[i]) == StampOf(files, order[i]) && SizeOf(after, order[i]) == SizeOf(files, order[i])
    {
      assert Before(order[i], last);
    }
  }

  lemma JoinedGrown(files: Directory, order: seq<Name>, file: LogFile, bytes: Bytes)
    requires order != [] && order[|order| - 1] in files && file.bytes == files[order[|order| - 1]].bytes + bytes
    requires forall i :: 0 <= i < |order| - 1 ==> Before(order[i], order[|order| - 1])
    ensures Joined(files[order[|order| - 1] := file], order) == Joined(files, order) + bytes
  {
    var n := |order| - 1;
    forall i | 0 <= i < n
      ensures BytesOf(files[order[n] := file], order[..n][i]) == BytesOf(files, order[..n][i])
    {
      assert Before(order[i], order[n]);
    }
    JoinedSame(files, files[order[n] := file], order[..n]);
  }

  lemma WriteKeeps(log: Log, book: Book, buffer: Bytes, today: int, accept: nat, limits: Limits)
    requires Running(log, book, limits) && log.date <= today
    ensures var (after, n) := Written(log, buffer, today, accept, limits);
      Running(after, WrittenBook(book, log, buffer, today, accept, limits), limits) && after.date == today
  {
    RotateKeeps(log, book, today, limits);
    var rotated := Rotated(log, today, limits);
    var n := Fitting(rotated.size, buffer, accept, limits);
    AppendKeeps(rotated, RotatedBook(book, log, today, limits), buffer[..n], limits);
  }

  /**
   A write of something into a file that takes something makes progress, except when the very last
   segment of the day is full: so the loop that writes a whole buffer ends, and ends early only there.
   */
  lemma WriteProgresses(log: Log, book: Book, buffer: Bytes, today: int, accept: nat, limits: Limits)
    requires Running(log, book, limits) && log.date <= today && buffer != [] && accept > 0
    ensures Written(log, buffer, today, accept, limits).1 == 0
       <==> today == log.date && log.size >= limits.maxBytes && log.segment == 4_294_967_295
  {
    if today != log.date {
      LatestIsLast(log, book, today, limits);
      assert Name(today, LatestSegment(log.files, today)) !in log.files;
    } else if log.size >= limits.maxBytes && log.segment != MAX_SEGMENT {
      NothingAfterLast(log.files, book.order, log.nextStamp, limits, Name(log.date, NextSegment(log.segment)));
    }
  }

  /** The stall is real: a directory whose one log is the last segment of the day, and full, keeps everything and takes nothing. */
  lemma SaturatedLogStalls(date: int, bytes: Bytes, maxFiles: nat, buffer: Bytes, accept: nat)
    requires bytes != [] && maxFiles > 0 && buffer != [] && accept > 0
    ensures var name := Name(date, MAX_SEGMENT); var limits := Limits(|bytes|, maxFiles);
      var log := Log(map[name := LogFile(bytes, 0)], date, MAX_SEGMENT, |bytes|, 1);
      Running(log, Book([name], bytes, []), limits) && Written(log, buffer, date, accept, limits).1 == 0
  {
    var name := Name(date, MAX_SEGMENT);
    var limits := Limits(|bytes|, maxFiles);
    var log := Log(map[name := LogFile(bytes, 0)], date, MAX_SEGMENT, |bytes|, 1);
    var book := Book([name], bytes, []);
    assert [name][0] in Members([name]);
    assert Members([name]) == {name};
    JoinedOne(log.files, name);
    WriteProgresses(log, book, buffer, date, accept, limits);
  }

  lemma RunningDescribes(log: Log, book: Book, limits: Limits)
    requires Running(log, book, limits)
    ensures Describes(log)
  {
    var files, order := log.files, book.order;
    forall a, b | a in files && b in files && a != b
      ensures files[a].stamp != files[b].stamp
    {
      assert a in Members(order) && b in Members(order);
      var i :| 0 <= i < |order| && order[i] == a;
      var j :| 0 <= j < |order| && order[j] == b;
      assert if i < j then StampOf(files, order[i]) < StampOf(files, order[j]) else StampOf(files, order[j]) < StampOf(files, order[i]);
    }
    forall a | a in files
      ensures files[a].stamp < log.nextStamp
    {
      assert a in Members(order);
      var i :| 0 <= i < |order| && order[i] == a;
      assert StampOf(files, order[i]) < log.nextStamp;
    }
  }

  /**
   The loop that writes a whole buffer over a file that always takes something: it ends, keeps the
   directory, and puts the whole buffer behind what was written before unless the day's last segment
   is full.
   */
  method WriteAll(appender: RollingAppender, ghost book: Book, buffer: Bytes, today: int, accepts: nat -> nat)
    returns (ok: bool, ghost after: Book)
    requires Running(appender.View(), book, appender.limits) && appender.currentDate <= today
    requires forall call :: accepts(call) > 0
    modifies appender
    ensures Running(appender.View(), after, appender.limits)
    ensures book.written <= after.written <= book.written + buffer
    ensures ok ==> after.written == book.written + buffer
    ensures !ok ==> appender.currentSegment == MAX_SEGMENT && appender.currentSize >= appender.limits.maxBytes
  {
    var rest, calls := buffer, 0;
    after := book;
    while rest != []
      invariant Running(appender.View(), after, appender.limits) && appender.currentDate <= today
      invariant after.written + rest == book.written + buffer
      invariant book.written <= after.written
      decreases |rest|
    {
      var n;
      ghost var before := after;
      n, after := WriteOnce(appender, before, rest, today, accepts(calls));
      if n == 0 { return false, after; }
      assert rest == rest[..n] + rest[n..];
      assert after.written + rest[n..] == before.written + rest;
      rest := rest[n..];
      calls := calls + 1;
    }
    return true, after;
  }

  method WriteOnce(appender: RollingAppender, ghost book: Book, buffer: Bytes, today: int, accept: nat)
    returns (n: nat, ghost after: Book)
    requires Running(appender.View(), book, appender.limits) && appender.currentDate <= today
    requires buffer != [] && accept > 0
    modifies appender
    ensures Running(appender.View(), after, appender.limits) && appender.currentDate == today
    ensures n <= |buffer| && after.written == book.written + buffer[..n]
    ensures n == 0 ==> appender.currentSegment == MAX_SEGMENT && appender.currentSize >= appender.limits.maxBytes
  {
    ghost var log, limits := appender.View(), appender.limits;
    RunningDescribes(log, book, limits);
    WriteProgresses(log, book, buffer, today, accept, limits);
    WriteKeeps(log, book, buffer, today, accept, limits);
    SaturatedStays(log, book, today, limits);
    after := WrittenBook(book, log, buffer, today, accept, limits);
    n := appender.Write(buffer, today, accept);
  }

  lemma SaturatedStays(log: Log, book: Book, today: int, limits: Limits)
    requires Running(log, book, limits)
    ensures today == log.date && log.size >= limits.maxBytes && log.segment == MAX_SEGMENT ==>
      Rotated(log, today, limits).segment == MAX_SEGMENT && Rotated(log, today, limits).size >= limits.maxBytes
  {
  }

  // ── Runs ──────────────────────────────────────────────────────────────────

  datatype State = State(log: Log, book: Book, open: bool)

  datatype Step = Begin(today: int) | Put(buffer: Bytes, today: int, accept: nat)

  /** The date never goes back, and only an open appender is written to. */
  ghost predicate Able(s: State, step: Step) {
    s.log.date <= step.today && (step.Put? ==> s.open)
  }

  ghost function Do(s: State, step: Step, limits: Limits): State {
    match step
    case Begin(today) => State(Started(s.log, today, limits), StartedBook(s.book, s.log, today, limits), true)
    case Put(buffer, today, accept) =>
      State(Written(s.log, buffer, today, accept, limits).0, WrittenBook(s.book, s.log, buffer, today, accept, limits), true)
  }

  ghost predicate IsRun(trace: seq<State>, steps: seq<Step>, limits: Limits) {
    && |trace| == |steps| + 1
    && forall i :: 0 <= i < |steps| ==> Able(trace[i], steps[i]) && trace[i + 1] == Do(trace[i], steps[i], limits)
  }

  ghost predicate Empty(s: State) {
    s.log.files == map[] && s.book == Book([], [], []) && !s.open
  }

  /**
   From an empty directory, over any number of starts and writes: no log is over the limit, there are
   never more than allowed, the current one is always among them, and the survivors in the order they
   were created are the end of everything that was ever written.
   */
  lemma {:induction false} SurvivorsAreTheEnd(trace: seq<State>, steps: seq<Step>, limits: Limits, i: nat)
    requires limits.maxBytes > 0 && limits.maxFiles > 0
    requires IsRun(trace, steps, limits) && Empty(trace[0]) && i < |trace|
    ensures Kept(trace[i].log, trace[i].book, limits)
    ensures trace[i].open ==> Running(trace[i].log, trace[i].book, limits)
    ensures var log, book := trace[i].log, trace[i].book;
      && (forall name :: name in log.files ==> |log.files[name].bytes| <= limits.maxBytes)
      && (trace[i].open ==> |log.files| <= limits.maxFiles && Current(log) in log.files)
      && book.written == book.dropped + Joined(log.files, book.order)
  {
    if i > 0 {
      SurvivorsAreTheEnd(trace, steps, limits, i - 1);
      var s := trace[i - 1];
      match steps[i - 1]
      case Begin(today) => StartKeeps(s.log, s.book, today, limits);
      case Put(buffer, today, accept) => WriteKeeps(s.log, s.book, buffer, today, accept, limits);
    }
    var log, order := trace[i].log, trace[i].book.order;
    ListedCount(log.files, order, log.nextStamp, limits);
    forall name | name in log.files
      ensures |log.files[name].bytes| <= limits.maxBytes
    {
      assert name in Members(order);
      var k :| 0 <= k < |order| && order[k] == name;
      assert SizeOf(log.files, order[k]) <= limits.maxBytes;
    }
  }

  /** Nothing written is ever rewritten: what was written at one point is the beginning of what is written later. */
  lemma {:induction false} WrittenOnlyGrows(trace: seq<State>, steps: seq<Step>, limits: Limits, i: nat, j: nat)
    requires IsRun(trace, steps, limits) && i <= j < |trace|
    ensures trace[i].book.written <= trace[j].book.written && trace[i].book.dropped <= trace[j].book.dropped
  {
    if i < j { WrittenOnlyGrows(trace, steps, limits, i, j - 1); }
  }
}
