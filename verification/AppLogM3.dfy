/** The incremental log reader of applogm3.go, and the search for an unused file name
    of applog.go that every chunk it captures goes through. */
module AppLogM3 {

  import opened Common

  // ---------------------------------------------------------------------
  // Unique file names
  // ---------------------------------------------------------------------

  const DIGITS := "0123456789"

  /** The decimal form of a number. */
  function Decimal(n: nat): string {
    if n < 10 then [DIGITS[n]] else Decimal(n / 10) + [DIGITS[n % 10]]
  }

  function DigitValue(c: char): int { c as int - '0' as int }

  function Value(s: string): int {
    if s == "" then 0 else 10 * Value(s[..|s| - 1]) + DigitValue(s[|s| - 1])
  }

  lemma {:induction false} ValueOfDecimal(n: nat)
    ensures Value(Decimal(n)) == n
  {
    if n >= 10 {
      ValueOfDecimal(n / 10);
      var s := Decimal(n / 10);
      assert Decimal(n)[..|s|] == s;
    } else {
      assert Value("") == 0 && Decimal(n)[..0] == "";
    }
  }

  /** The name of the chunk with the given number. */
  function LogPath(counter: nat, base: string): string {
    Decimal(counter) + (".appLogs." + base)
  }

  /** Decimal digits, the last for the remainder by ten, and the name that begins with them. */
  lemma NameReads(n: nat, base: string)
    ensures var d := Decimal(n);
      && LogPath(n, base) == d + ".appLogs." + base
      && |d| >= 1 && d[|d| - 1] as int == '0' as int + n % 10
      && (if n < 10 then |d| == 1 else d[..|d| - 1] == Decimal(n / 10))
  {
    assert forall i :: 0 <= i < 10 ==> DIGITS[i] as int == '0' as int + i;
    assert Decimal(n) + (".appLogs." + base) == Decimal(n) + ".appLogs." + base;
    if n >= 10 {
      assert Decimal(n)[..|Decimal(n / 10)|] == Decimal(n / 10);
    }
  }

  lemma LogPathsDiffer(a: nat, b: nat, base: string)
    requires LogPath(a, base) == LogPath(b, base)
    ensures a == b
  {
    var s, t := Decimal(a), Decimal(b);
    assert |s| == |t|;
    assert s == LogPath(a, base)[..|s|] && t == LogPath(b, base)[..|t|];
    ValueOfDecimal(a);
    ValueOfDecimal(b);
  }

  function PathsBelow(base: string, n: nat): set<string> {
    if n <= 1 then {} else PathsBelow(base, n - 1) + {LogPath(n - 1, base)}
  }

  lemma {:induction false} NotBelow(base: string, n: nat, m: nat)
    requires m >= n >= 1
    ensures LogPath(m, base) !in PathsBelow(base, n)
  {
    hide LogPath;
    if n > 1 {
      NotBelow(base, n - 1, m);
      if LogPath(m, base) == LogPath(n - 1, base) {
        LogPathsDiffer(m, n - 1, base);
      }
    }
  }

  lemma {:induction false} PathsBelowSize(base: string, n: nat, files: set<string>)
    requires n >= 1 && forall j :: 1 <= j < n ==> LogPath(j, base) in files
    ensures |PathsBelow(base, n)| == n - 1 && PathsBelow(base, n) <= files
  {
    hide LogPath;
    if n > 1 {
      PathsBelowSize(base, n - 1, files);
      NotBelow(base, n - 1, n - 1);
    }
  }

  lemma SubsetSize<T>(a: set<T>, b: set<T>)
    requires a <= b
    ensures |a| <= |b|
  {
    assert b == a + (b - a);
  }

  lemma SearchBound(base: string, n: nat, files: set<string>)
    requires n >= 1 && forall j :: 1 <= j < n ==> LogPath(j, base) in files
    ensures n <= |files| + 1
  {
    PathsBelowSize(base, n, files);
    SubsetSize(PathsBelow(base, n), files);
  }

  /** The search has no bound of its own; it ends because there are only so many
      files.  The name it ends on is the least unused one. */
  method GenerateUniqueLogPath(base: string, files: set<string>) returns (path: string, counter: nat)
    ensures counter >= 1 && path == LogPath(counter, base) && path !in files
    ensures forall j :: 1 <= j < counter ==> LogPath(j, base) in files
    ensures counter <= |files| + 1
  {
    hide LogPath;
    counter := 1;
    while true
      invariant counter >= 1 && forall j :: 1 <= j < counter ==> LogPath(j, base) in files
      invariant counter <= |files| + 1
      decreases |files| + 1 - counter
    {
      path := LogPath(counter, base);
      if path !in files {
        return;
      }
      SearchBound(base, counter + 1, files);
      counter := counter + 1;
    }
  }

  // ---------------------------------------------------------------------
  // One capture
  // ---------------------------------------------------------------------

  datatype ReadStat = ReadStat(fileSize: nat, readPosition: nat)

  /** What goes wrong around a capture, if anything. */
  datatype Env = Env(statOk: bool, openOk: bool, seekOk: bool, seekStartOk: bool, createOk: bool, copyOk: bool,
                     syncOk: bool)

  datatype Outcome =
    | StatFailed | OpenFailed | Initialized | SeekFailed | CreateFailed | CopyFailed | SyncFailed | Posted

  /** The chunk was copied completely, and the state updated. */
  predicate Copied(o: Outcome) { o == Posted || o == SyncFailed }

  class Reader {
    var readStats: map<string, ReadStat>
    /** The files of the working directory, where the chunks go. */
    var disk: map<string, seq<byte>>

    constructor (disk: map<string, seq<byte>>)
      ensures readStats == map[] && this.disk == disk
    {
      readStats, this.disk := map[], disk;
    }

    /** CaptureSingleAppLog.  content is the one snapshot of the file that both stat and
        copy see; torn is what a failing copy manages to write. */
    method Capture(filePath: string, base: string, content: seq<byte>, env: Env, torn: seq<byte>)
      returns (o: Outcome, dst: string, chunk: seq<byte>)
      modifies this
      ensures (o, chunk) == CaptureOf(Get(old(readStats), filePath), content, env)
      ensures readStats == Put(old(readStats), filePath, StatAfter(Get(old(readStats), filePath), content, env))
      ensures forall p :: p != filePath ==> Get(readStats, p) == Get(old(readStats), p)
      ensures !Copied(o) && o != Initialized ==> readStats == old(readStats)
      ensures o == Initialized || Copied(o) ==> filePath in readStats && readStats[filePath].fileSize == |content|
      ensures forall p :: p in old(disk) ==> p in disk && disk[p] == old(disk)[p]
      ensures Copied(o) ==> dst !in old(disk) && disk == old(disk)[dst := chunk]
      ensures !Copied(o) && o != CopyFailed ==> disk == old(disk)
    {
      o, dst, chunk := StatFailed, "", [];
      if !env.statOk {
        return;
      }
      if !env.openOk {
        return OpenFailed, "", [];
      }
      var size := |content|;
      if filePath !in readStats {
        readStats := readStats[filePath := ReadStat(size, size)];
        return Initialized, "", [];
      }
      var stat := readStats[filePath];
      if size < stat.fileSize {
        stat := stat.(readPosition := 0);
      } else if !env.seekOk {
        if !env.seekStartOk {
          return SeekFailed, "", [];
        }
        stat := stat.(readPosition := 0);
      }
      var counter;
      dst, counter := GenerateUniqueLogPath(base, disk.Keys);
      if !env.createOk {
        return CreateFailed, dst, [];
      }
      if !env.copyOk {
        disk := disk[dst := torn];
        return CopyFailed, dst, [];
      }
      chunk := if stat.readPosition <= size then content[stat.readPosition..] else [];
      disk := disk[dst := chunk];
      readStats := readStats[filePath := ReadStat(size, stat.readPosition + |chunk|)];
      o := if env.syncOk then Posted else SyncFailed;
    }
  }

  function Get(m: map<string, ReadStat>, k: string): Option<ReadStat> {
    if k in m then Some(m[k]) else None
  }

  function Put(m: map<string, ReadStat>, k: string, v: Option<ReadStat>): map<string, ReadStat> {
    if v.Some? then m[k := v.value] else m
  }

  /** Where the copy starts: over again when the file shrank, or when seeking failed. */
  function From(stat: ReadStat, size: nat, env: Env): nat {
    if size < stat.fileSize || !env.seekOk then 0 else stat.readPosition
  }

  function CaptureOf(stat: Option<ReadStat>, content: seq<byte>, env: Env): (Outcome, seq<byte>) {
    if !env.statOk then (StatFailed, [])
    else if !env.openOk then (OpenFailed, [])
    else if stat.None? then (Initialized, [])
    else if |content| >= stat.value.fileSize && !env.seekOk && !env.seekStartOk then (SeekFailed, [])
    else if !env.createOk then (CreateFailed, [])
    else if !env.copyOk then (CopyFailed, [])
    else
      var from := From(stat.value, |content|, env);
      (if env.syncOk then Posted else SyncFailed, if from <= |content| then content[from..] else [])
  }

  function StatAfter(stat: Option<ReadStat>, content: seq<byte>, env: Env): Option<ReadStat> {
    var (o, chunk) := CaptureOf(stat, content, env);
    if o == Initialized then Some(ReadStat(|content|, |content|))
    else if Copied(o) then Some(ReadStat(|content|, From(stat.value, |content|, env) + |chunk|))
    else stat
  }

  /** Every outcome of a capture, by what went wrong first. */
  lemma OutcomeIs(stat: Option<ReadStat>, content: seq<byte>, env: Env)
    ensures var o := CaptureOf(stat, content, env).0;
      if !env.statOk then o == StatFailed
      else if !env.openOk then o == OpenFailed
      else if stat.None? then o == Initialized
      else if |content| >= stat.value.fileSize && !env.seekOk && !env.seekStartOk then o == SeekFailed
      else if !env.createOk then o == CreateFailed
      else if !env.copyOk then o == CopyFailed
      else o == if env.syncOk then Posted else SyncFailed
  {}

  /** A capture that fails before its copy is complete leaves no trace in the state: the next
      one collects what it would have collected. */
  lemma FailureIsRetried(stat: Option<ReadStat>, content: seq<byte>, env: Env, later: seq<byte>, env': Env)
    ensures var o := CaptureOf(stat, content, env).0;
      o != Initialized && o != Posted && o != SyncFailed ==>
        CaptureOf(StatAfter(stat, content, env), later, env') == CaptureOf(stat, later, env')
  {}

  /** A file whose capture was complete, and that then grows, is next read from where it ended. */
  lemma NextChunk(stat: Option<ReadStat>, content: seq<byte>, env: Env, more: seq<byte>, env': Env)
    requires var o := CaptureOf(stat, content, env).0; o == Initialized || o == Posted || o == SyncFailed
    requires stat.Some? ==> stat.value.readPosition <= |content| || |content| < stat.value.fileSize
    requires env' == Env(true, true, true, true, true, true, true)
    ensures CaptureOf(StatAfter(stat, content, env), content + more, env') == (Posted, more)
  {
    assert (content + more)[|content|..] == more;
  }

  // ---------------------------------------------------------------------
  // Whole runs over one file
  // ---------------------------------------------------------------------

  /** What happens to a file: it grows, is rotated, or is captured. */
  datatype Event = Append(bytes: seq<byte>) | Rotate(content: seq<byte>) | Shot(env: Env)

  /** Where bytes of the file went: into a chunk, of which the first repeated bytes lie in
      front of the read position and which is sent if it could be synced, or past the
      reader. */
  datatype Segment = Chunk(bytes: seq<byte>, repeated: nat, sent: bool) | Lost(bytes: seq<byte>)

  /** The file, what the reader knows of it, and the chunks collected since it was first
      seen or since it was last seen to shrink; start is where they begin.  rotated says
      that the file was rotated after its last complete capture.  written are all bytes
      the file was given since it was first seen, log is where they went. */
  datatype World = World(content: seq<byte>, stat: Option<ReadStat>, collected: seq<byte>, start: nat, rotated: bool,
                         written: seq<byte>, log: seq<Segment>)

  /** The bytes of the file that the reader has not come to. */
  function Pending(w: World): seq<byte> {
    if w.stat.None? then []
    else if w.rotated || w.stat.value.readPosition > |w.content| then w.content
    else w.content[w.stat.value.readPosition..]
  }

  /** The bytes in front of the place where a copy starts that are passed over: those of a
      rotated file that is not seen to be one. */
  function PassedOver(w: World, env: Env): (n: nat)
    requires w.stat.Some?
    ensures n <= |w.content|
  {
    var from := From(w.stat.value, |w.content|, env);
    if w.rotated && from <= |w.content| then from else 0
  }

  /** The bytes behind that place that an earlier copy passed: those of a file that is read
      from its start because seeking failed. */
  function ReadAgain(w: World, env: Env): nat
    requires w.stat.Some?
  {
    if w.rotated || |w.content| < w.stat.value.fileSize || env.seekOk then 0 else w.stat.value.readPosition
  }

  function Step(w: World, e: Event): World {
    match e
    case Append(bytes) =>
      w.(content := w.content + bytes, written := if w.stat.Some? then w.written + bytes else [])
    case Rotate(content) =>
      if w.stat.None? then w.(content := content, rotated := true)
      else w.(content := content, rotated := true, written := w.written + content, log := w.log + [Lost(Pending(w))])
    case Shot(env) =>
      var (o, chunk) := CaptureOf(w.stat, w.content, env);
      var stat := StatAfter(w.stat, w.content, env);
      if o == Initialized then World(w.content, stat, [], |w.content|, false, [], [])
      else if !Copied(o) then w.(stat := stat)
      else
        var log := w.log + [Lost(w.content[..PassedOver(w, env)])] + [Chunk(chunk, ReadAgain(w, env), o == Posted)];
        if |w.content| < w.stat.value.fileSize then World(w.content, stat, chunk, 0, false, w.written, log)
        else World(w.content, stat, w.collected + chunk, w.start, false, w.written, log)
  }

  function Run(w: World, events: seq<Event>): World {
    if events == [] then w else Step(Run(w, events[..|events| - 1]), events[|events| - 1])
  }

  /** A new file, or one the reader has never seen. */
  predicate Unseen(w: World) {
    w.stat.None? && w.collected == [] && w.start == 0 && !w.rotated && w.written == [] && w.log == []
  }

  /** A rotation is seen when the file is smaller than it was at the last capture. */
  predicate SeenToShrink(w: World, e: Event) {
    e.Shot? && w.rotated && w.stat.Some? && Copied(CaptureOf(w.stat, w.content, e.env).0) ==>
      |w.content| < w.stat.value.fileSize
  }

  predicate SeeksWork(e: Event) { e.Shot? ==> e.env.seekOk }

  ghost predicate Observed(w: World, events: seq<Event>) {
    forall k :: 0 <= k < |events| ==> SeenToShrink(Run(w, events[..k]), events[k]) && SeeksWork(events[k])
  }

  /** Every byte from start to the read position was collected once, in order. */
  predicate Exact(w: World) {
    w.stat.Some? ==>
      && w.stat.value.readPosition == w.stat.value.fileSize
      && w.start + |w.collected| == w.stat.value.readPosition
      && (!w.rotated ==> w.stat.value.readPosition <= |w.content|
                         && w.collected == w.content[w.start..w.stat.value.readPosition])
  }

  /** After a complete capture: the whole file from start on has been collected. */
  predicate CaughtUp(w: World) {
    && !w.rotated && w.stat.Some?
    && w.stat.value.fileSize == w.stat.value.readPosition == |w.content|
    && w.start <= |w.content| && w.collected == w.content[w.start..]
  }

  lemma StepExact(w: World, e: Event)
    requires Exact(w) && SeenToShrink(w, e) && SeeksWork(e)
    ensures Exact(Step(w, e))
    ensures e.Shot? && Copied(CaptureOf(w.stat, w.content, e.env).0) ==>
              CaughtUp(Step(w, e))
  {
    match e
    case Rotate(_) =>
    case Append(bytes) =>
      if w.stat.Some? && !w.rotated {
        var pos := w.stat.value.readPosition;
        assert (w.content + bytes)[w.start..pos] == w.content[w.start..pos];
      }
    case Shot(env) =>
      if Copied(CaptureOf(w.stat, w.content, env).0) {
        var pos := w.stat.value.readPosition;
        if |w.content| < w.stat.value.fileSize {
          assert w.content[0..] == w.content[0..|w.content|] == w.content;
        } else {
          assert w.content[w.start..pos] + w.content[pos..] == w.content[w.start..] == w.content[w.start..|w.content|];
        }
      } else {
        assert w.content[|w.content|..] == [];
      }
  }

  /** Over any interleaving of appends, rotations and captures, successful or not, in
      which rotations are seen and seeking works: the chunks collected since the file was
      first seen, or last seen to shrink, are its bytes up to the read position. */
  lemma {:induction false} RunExact(w: World, events: seq<Event>)
    requires Unseen(w) && Observed(w, events)
    ensures Exact(Run(w, events))
  {
    if events != [] {
      var n := |events| - 1;
      forall k | 0 <= k < n
        ensures SeenToShrink(Run(w, events[..n][..k]), events[..n][k]) && SeeksWork(events[..n][k])
      {
        assert events[..n][..k] == events[..k];
      }
      RunExact(w, events[..n]);
      StepExact(Run(w, events[..n]), events[n]);
    }
  }

  // ---------------------------------------------------------------------
  // Where the bytes go, over any run whatever
  // ---------------------------------------------------------------------

  /** The bytes a segment accounts for. */
  function Part(g: Segment): seq<byte> {
    match g
    case Chunk(bytes, repeated, _) => if repeated <= |bytes| then bytes[repeated..] else []
    case Lost(bytes) => bytes
  }

  function Parts(log: seq<Segment>): seq<byte> {
    if log == [] then [] else Parts(log[..|log| - 1]) + Part(log[|log| - 1])
  }

  /** What was handed to the server. */
  function Sent(log: seq<Segment>): seq<byte> {
    if log == [] then []
    else
      var g := log[|log| - 1];
      Sent(log[..|log| - 1]) + if g.Chunk? && g.sent then g.bytes else []
  }

  /** The read position is where the file ended at the last capture, and in front of the end
      of a file that was not rotated since. */
  predicate Placed(w: World) {
    && (w.stat.Some? ==> w.stat.value.readPosition == w.stat.value.fileSize)
    && (w.stat.Some? && !w.rotated ==> w.stat.value.readPosition <= |w.content|)
    && (w.stat.None? ==> w.written == [] && w.log == [])
  }

  lemma PartsSnoc(log: seq<Segment>, g: Segment)
    ensures Parts(log + [g]) == Parts(log) + Part(g)
    ensures Sent(log + [g]) == Sent(log) + if g.Chunk? && g.sent then g.bytes else []
  {
    assert (log + [g])[..|log|] == log;
  }

  /** A complete copy accounts for everything that was pending: a part is passed over, the
      rest is what the chunk brings. */
  lemma CopyAccounts(w: World, env: Env)
    requires Placed(w) && Copied(CaptureOf(w.stat, w.content, env).0)
    ensures var chunk := CaptureOf(w.stat, w.content, env).1;
      && ReadAgain(w, env) <= |chunk|
      && Pending(w) == w.content[..PassedOver(w, env)] + chunk[ReadAgain(w, env)..]
  {
    var from := From(w.stat.value, |w.content|, env);
    var chunk := w.content[from..];
    assert w.content[..from] + w.content[from..] == w.content;
    assert w.content[0..] == w.content && w.content[..0] == [] && chunk[0..] == chunk;
  }

  lemma AfterCopy(w: World, env: Env)
    requires Placed(w) && Copied(CaptureOf(w.stat, w.content, env).0)
    ensures var (o, chunk) := CaptureOf(w.stat, w.content, env); var w' := Step(w, Shot(env));
      && Placed(w') && Pending(w') == [] && w'.written == w.written
      && w'.log == w.log + [Lost(w.content[..PassedOver(w, env)])] + [Chunk(chunk, ReadAgain(w, env), o == Posted)]
  {}

  lemma KnownFile(w: World, env: Env)
    requires Copied(CaptureOf(w.stat, w.content, env).0)
    ensures w.stat.Some?
  {}

  lemma CopyStep(w: World, env: Env)
    requires Placed(w) && w.written == Parts(w.log) + Pending(w)
    requires Copied(CaptureOf(w.stat, w.content, env).0)
    ensures var w' := Step(w, Shot(env)); Placed(w') && w'.written == Parts(w'.log) + Pending(w')
  {
    hide Parts, Step, Placed, Pending, CaptureOf, PassedOver, ReadAgain, Copied;
    KnownFile(w, env);
    AfterCopy(w, env);
    CopyAccounts(w, env);
    var (o, chunk) := CaptureOf(w.stat, w.content, env);
    var lost, took := Lost(w.content[..PassedOver(w, env)]), Chunk(chunk, ReadAgain(w, env), o == Posted);
    PartsSnoc(w.log, lost);
    PartsSnoc(w.log + [lost], took);
  }

  lemma AppendStep(w: World, bytes: seq<byte>)
    requires Placed(w) && w.written == Parts(w.log) + Pending(w)
    ensures var w' := Step(w, Append(bytes)); Placed(w') && w'.written == Parts(w'.log) + Pending(w')
  {
    hide Parts;
    NoParts();
    if w.stat.Some? && !w.rotated {
      var pos := w.stat.value.readPosition;
      assert (w.content + bytes)[pos..] == w.content[pos..] + bytes;
    }
  }

  lemma RotateStep(w: World, content: seq<byte>)
    requires Placed(w) && w.written == Parts(w.log) + Pending(w)
    ensures var w' := Step(w, Rotate(content)); Placed(w') && w'.written == Parts(w'.log) + Pending(w')
  {
    hide Parts;
    NoParts();
    PartsSnoc(w.log, Lost(Pending(w)));
  }

  lemma OtherShot(w: World, env: Env)
    requires Placed(w) && w.written == Parts(w.log) + Pending(w)
    requires !Copied(CaptureOf(w.stat, w.content, env).0)
    ensures var w' := Step(w, Shot(env)); Placed(w') && w'.written == Parts(w'.log) + Pending(w')
  {
    hide Parts;
    NoParts();
  }

  lemma StepAccounts(w: World, e: Event)
    requires Placed(w) && w.written == Parts(w.log) + Pending(w)
    ensures Placed(Step(w, e)) && Step(w, e).written == Parts(Step(w, e).log) + Pending(Step(w, e))
  {
    hide Parts, Step, Placed, Pending;
    match e
    case Append(bytes) => AppendStep(w, bytes);
    case Rotate(content) => RotateStep(w, content);
    case Shot(env) =>
      if Copied(CaptureOf(w.stat, w.content, env).0) { CopyStep(w, env); } else { OtherShot(w, env); }
  }

  lemma NoParts()
    ensures Parts([]) == []
  {}

  /** Every byte the file was given since it was first seen is accounted for once, in order:
      it came into a chunk, was lost, or is pending.  This holds of every run. */
  lemma {:induction false} RunAccounts(w: World, events: seq<Event>)
    requires Unseen(w)
    ensures Placed(Run(w, events))
    ensures Run(w, events).written == Parts(Run(w, events).log) + Pending(Run(w, events))
  {
    if events != [] {
      RunAccounts(w, events[..|events| - 1]);
      StepAccounts(Run(w, events[..|events| - 1]), events[|events| - 1]);
    }
  }

  predicate NothingLost(log: seq<Segment>) { forall i :: 0 <= i < |log| && log[i].Lost? ==> log[i].bytes == [] }

  predicate NothingRepeated(log: seq<Segment>) { forall i :: 0 <= i < |log| && log[i].Chunk? ==> log[i].repeated == 0 }

  predicate NothingUnsent(log: seq<Segment>) {
    forall i :: 0 <= i < |log| && log[i].Chunk? && !log[i].sent ==> log[i].bytes == []
  }

  predicate Copies(w: World, e: Event) { e.Shot? && w.stat.Some? && Copied(CaptureOf(w.stat, w.content, e.env).0) }

  /** Bytes are lost when a file is rotated before the reader has caught up, and when a
      rotated file is captured that has grown to the size of its predecessor. */
  predicate Loses(w: World, e: Event) {
    match e
    case Append(_) => false
    case Rotate(_) => Pending(w) != []
    case Shot(env) =>
      Copies(w, e) && w.rotated && env.seekOk && |w.content| >= w.stat.value.fileSize > 0
  }

  /** Bytes are collected again when seeking fails in a file that was read before. */
  predicate Repeats(w: World, e: Event) {
    Copies(w, e) && !w.rotated && !e.env.seekOk && w.stat.value.readPosition > 0
  }

  /** A chunk that cannot be synced is not sent, and the reader has moved on. */
  predicate Withholds(w: World, e: Event) {
    Copies(w, e) && !e.env.syncOk && CaptureOf(w.stat, w.content, e.env).1 != []
  }

  lemma StepFlaws(w: World, e: Event)
    requires Placed(w)
    ensures NothingLost(Step(w, e).log) <==> NothingLost(w.log) && !Loses(w, e)
    ensures NothingRepeated(Step(w, e).log) <==> NothingRepeated(w.log) && !Repeats(w, e)
    ensures NothingUnsent(Step(w, e).log) <==> NothingUnsent(w.log) && !Withholds(w, e)
  {
    if e.Shot? && Copies(w, e) {
      FlawsSnoc(w.log, Lost(w.content[..PassedOver(w, e.env)]));
      var (o, chunk) := CaptureOf(w.stat, w.content, e.env);
      FlawsSnoc(w.log + [Lost(w.content[..PassedOver(w, e.env)])], Chunk(chunk, ReadAgain(w, e.env), o == Posted));
    } else if e.Rotate? && w.stat.Some? {
      FlawsSnoc(w.log, Lost(Pending(w)));
    }
    hide NothingLost, NothingRepeated, NothingUnsent;
  }

  lemma FlawsSnoc(log: seq<Segment>, g: Segment)
    ensures NothingLost(log + [g]) <==> NothingLost(log) && (g.Lost? ==> g.bytes == [])
    ensures NothingRepeated(log + [g]) <==> NothingRepeated(log) && (g.Chunk? ==> g.repeated == 0)
    ensures NothingUnsent(log + [g]) <==> NothingUnsent(log) && (g.Chunk? && !g.sent ==> g.bytes == [])
  {
    var all := log + [g];
    assert all[|log|] == g && forall i :: 0 <= i < |log| ==> all[i] == log[i];
  }

  /** No event of a run has the given flaw, in the state in front of it. */
  ghost predicate Never(w: World, events: seq<Event>, flaw: (World, Event) -> bool) {
    forall k :: 0 <= k < |events| ==> !FlawAt(w, events, flaw, k)
  }

  ghost predicate FlawAt(w: World, events: seq<Event>, flaw: (World, Event) -> bool, k: nat)
    requires k < |events|
  {
    flaw(Run(w, events[..k]), events[k])
  }

  lemma FlawInFront(w: World, events: seq<Event>, flaw: (World, Event) -> bool, n: nat, k: nat)
    requires k < n <= |events|
    ensures FlawAt(w, events[..n], flaw, k) <==> FlawAt(w, events, flaw, k)
  {
    hide Run;
    assert events[..n][..k] == events[..k];
  }

  lemma NeverSnoc(w: World, events: seq<Event>, flaw: (World, Event) -> bool)
    requires events != []
    ensures var n := |events| - 1;
      Never(w, events, flaw) <==> Never(w, events[..n], flaw) && !flaw(Run(w, events[..n]), events[n])
  {
    hide Never, Run;
    var n := |events| - 1;
    assert FlawAt(w, events, flaw, n) <==> flaw(Run(w, events[..n]), events[n]);
    NeverFront(w, events, flaw);
  }

  lemma NeverFront(w: World, events: seq<Event>, flaw: (World, Event) -> bool)
    requires events != []
    ensures var n := |events| - 1;
      Never(w, events, flaw) <==> Never(w, events[..n], flaw) && !FlawAt(w, events, flaw, n)
  {
    hide FlawAt;
    var n := |events| - 1;
    forall k | 0 <= k < n
      ensures FlawAt(w, events[..n], flaw, k) <==> FlawAt(w, events, flaw, k)
    {
      FlawInFront(w, events, flaw, n, k);
    }
  }

  /** Of every run: bytes are lost, collected twice or kept from the server exactly when some
      event does so, which the state in front of it decides. */
  lemma {:induction false} RunFlaws(w: World, events: seq<Event>)
    requires Unseen(w)
    ensures NothingLost(Run(w, events).log) <==> Never(w, events, Loses)
    ensures NothingRepeated(Run(w, events).log) <==> Never(w, events, Repeats)
    ensures NothingUnsent(Run(w, events).log) <==> Never(w, events, Withholds)
  {
    hide NothingLost, NothingRepeated, NothingUnsent, Loses, Repeats, Withholds;
    if events == [] {
      hide Run;
      assert Run(w, []).log == [] && NothingLost([]) && NothingRepeated([]) && NothingUnsent([]) by { NoFlaws(w); }
    } else {
      var n := |events| - 1;
      RunAccounts(w, events[..n]);
      RunFlaws(w, events[..n]);
      StepFlaws(Run(w, events[..n]), events[n]);
      NeverSnoc(w, events, Loses);
      NeverSnoc(w, events, Repeats);
      NeverSnoc(w, events, Withholds);
    }
  }

  lemma NoFlaws(w: World)
    requires Unseen(w)
    ensures Run(w, []).log == [] && NothingLost([]) && NothingRepeated([]) && NothingUnsent([])
  {}

  /** Without repetitions as much is sent as is neither lost nor withheld. */
  lemma {:induction false} SentIsParts(log: seq<Segment>)
    requires NothingRepeated(log)
    ensures |Sent(log)| <= |Parts(log)|
    ensures |Sent(log)| == |Parts(log)| <==> NothingLost(log) && NothingUnsent(log)
    ensures |Sent(log)| == |Parts(log)| ==> Sent(log) == Parts(log)
  {
    if log != [] {
      var front, g := log[..|log| - 1], log[|log| - 1];
      assert log == front + [g];
      FlawsSnoc(front, g);
      SentIsParts(front);
      PartsSnoc(front, g);
      hide NothingLost, NothingRepeated, NothingUnsent, Parts, Sent;
    }
  }

  /** The chunks sent are everything the file was given since it was first seen, byte for
      byte, if and only if nothing is pending, no rotation came before the reader had caught
      up or went unseen, and every chunk could be synced; this where seeking repeated
      nothing. */
  lemma EverythingSent(w: World, events: seq<Event>)
    requires Unseen(w) && Never(w, events, Repeats)
    ensures Sent(Run(w, events).log) == Run(w, events).written <==>
              Pending(Run(w, events)) == [] && Never(w, events, Loses) && Never(w, events, Withholds)
  {
    hide NothingLost, NothingRepeated, NothingUnsent, Loses, Repeats, Withholds, Never, Run, Sent, Parts;
    RunAccounts(w, events);
    RunFlaws(w, events);
    SentIsParts(Run(w, events).log);
  }

  lemma FirstSight(w: World, env: Env)
    requires Unseen(w) && env == Env(true, true, true, true, true, true, true)
    ensures var n := |w.content|; Step(w, Shot(env)) == World(w.content, Some(ReadStat(n, n)), [], n, false, [], [])
  {}

  lemma AfterShrink(w: World, env: Env)
    requires w.rotated && w.stat.Some? && |w.content| < w.stat.value.fileSize
    requires env == Env(true, true, true, true, true, true, true)
    ensures Step(w, Shot(env)).written == w.written && SeenToShrink(w, Shot(env))
    ensures Step(w, Shot(env)).log == w.log + [Lost([])] + [Chunk(w.content, 0, true)]
  {
    assert w.content[0..] == w.content && w.content[..0] == [];
  }

  /** A capture, more bytes, a rotation and another capture, step by step. */
  lemma RotationSteps(w: World, env: Env, more: seq<byte>, content: seq<byte>)
    requires Unseen(w) && env == Env(true, true, true, true, true, true, true) && |content| < |w.content|
    ensures var w1 := Step(w, Shot(env)); var w2 := Step(w1, Append(more)); var w3 := Step(w2, Rotate(content));
      var w4 := Step(w3, Shot(env));
      && SeenToShrink(w, Shot(env)) && SeenToShrink(w3, Shot(env))
      && w4.written == more + content && w4.log == [Lost(more)] + [Lost([])] + [Chunk(content, 0, true)]
  {
    hide CaptureOf, StatAfter, PassedOver, ReadAgain, Copied;
    FirstSight(w, env);
    assert (w.content + more)[|w.content|..] == more;
    var w3 := Step(Step(Step(w, Shot(env)), Append(more)), Rotate(content));
    AfterShrink(w3, env);
  }

  /** Whatever is appended between a capture and a rotation, also one seen to shrink, is in
      no chunk. */
  lemma RotationLoses(w: World, env: Env, more: seq<byte>, content: seq<byte>)
    requires Unseen(w) && env == Env(true, true, true, true, true, true, true) && |content| < |w.content|
    ensures var events := [Shot(env), Append(more), Rotate(content), Shot(env)];
      && Observed(w, events) && Run(w, events).written == more + content && Sent(Run(w, events).log) == content
      && (NothingLost(Run(w, events).log) <==> more == [])
  {
    hide Run, Step, SeenToShrink, Unseen, NothingLost, Sent, Parts, NothingRepeated, NothingUnsent;
    var e0, e1, e2 := Shot(env), Append(more), Rotate(content);
    var events := [e0, e1, e2, e0];
    RotationSteps(w, env, more, content);
    RunSnoc(w, [], e0);
    RunSnoc(w, [e0], e1);
    RunSnoc(w, [e0, e1], e2);
    RunSnoc(w, [e0, e1, e2], e0);
    assert [] + [e0] == [e0] && [e0] + [e1] == [e0, e1] && [e0, e1] + [e2] == [e0, e1, e2];
    assert [e0, e1, e2] + [e0] == events;
    assert events[..0] == [] && events[..1] == [e0] && events[..2] == [e0, e1] && events[..3] == [e0, e1, e2];
    OnlyCapturesShrink(Run(w, [e0]), more, Run(w, [e0, e1]), content);
    ThreeSegments(more, content);
  }

  lemma OnlyCapturesShrink(w: World, more: seq<byte>, w': World, content: seq<byte>)
    ensures SeenToShrink(w, Append(more)) && SeenToShrink(w', Rotate(content))
  {}

  lemma ThreeSegments(more: seq<byte>, content: seq<byte>)
    ensures var log := [Lost(more)] + [Lost([])] + [Chunk(content, 0, true)];
      Sent(log) == content && (NothingLost(log) <==> more == [])
  {
    var lost, none, chunk := Lost(more), Lost([]), Chunk(content, 0, true);
    PartsSnoc([], lost);
    PartsSnoc([lost], none);
    PartsSnoc([lost] + [none], chunk);
    FlawsSnoc([], lost);
    FlawsSnoc([lost], none);
    FlawsSnoc([lost] + [none], chunk);
    assert [] + [lost] == [lost];
  }

  lemma RunSnoc(w: World, events: seq<Event>, e: Event)
    ensures Run(w, events + [e]) == Step(Run(w, events), e) && Run(w, []) == w
  {
    assert (events + [e])[..|events|] == events;
  }

  /** The condition is exact: a rotated file is captured whole if and only if it is seen
      to shrink or nothing had been read of its predecessor. */
  lemma RotationCaptured(stat: ReadStat, content: seq<byte>, env: Env)
    requires env == Env(true, true, true, true, true, true, env.syncOk)
    requires stat.readPosition == stat.fileSize
    ensures CaptureOf(Some(stat), content, env).1 == content <==> |content| < stat.fileSize || stat.fileSize == 0
  {
    if |content| >= stat.fileSize {
      assert |content[stat.readPosition..]| == |content| - stat.readPosition;
    }
  }

  /** So is the one on seeking: without it everything is collected again, which does no
      harm only when nothing had been read. */
  lemma SeekFailureRepeats(stat: ReadStat, content: seq<byte>, env: Env)
    requires env == Env(true, true, false, true, true, true, env.syncOk)
    requires stat.readPosition == stat.fileSize <= |content|
    ensures CaptureOf(Some(stat), content, env).1 == content
    ensures CaptureOf(Some(stat), content, env).1 == content[stat.readPosition..] <==> stat.readPosition == 0
  {
    assert |content[stat.readPosition..]| == |content| - stat.readPosition;
  }
}
