/**
 The parallel scan of the polling watcher (cmd/lsp-session-manager/polling_watcher.go): workers take
 directories off a bounded queue and count themselves as active; a monitor reads the length of the
 queue and then the number of active workers, and closes the queue when both are zero.
 */
module DirScan {
  import opened Wrappers

  /** A file with its modification time unless that is refused, or a directory that may be unreadable. */
  datatype Entry = File(name: string, mtime: Option<int>) | Dir(name: string, readable: bool, entries: seq<Entry>)

  type Path = seq<string>
  type Found = (Path, int)

  // ----- what belongs to a scan

  function ToLower(c: char): char {
    if 'A' <= c <= 'Z' then c - 'A' + 'a' else c
  }

  /** The extension from the last dot on, in lower case. */
  function LowerExt(name: string): string {
    if name == "" then ""
    else
      var last := name[|name| - 1];
      if last == '.' then "."
      else
        var ext := LowerExt(name[..|name| - 1]);
        if ext == "" then "" else ext + [ToLower(last)]
  }

  predicate IsTarget(name: string) {
    LowerExt(name) == ".bsl" || LowerExt(name) == ".os"
  }

  predicate IsSkipped(name: string) {
    "." <= name || name == "node_modules" || name == "vendor"
  }

  /** `ext` is `lower` with some of its letters written as capitals. */
  predicate UpToCase(ext: string, lower: string) {
    && |ext| == |lower|
    && forall i :: 0 <= i < |ext| ==>
         ext[i] == lower[i] || ('a' <= lower[i] <= 'z' && ext[i] as int + 32 == lower[i] as int)
  }

  lemma {:induction false} ExtensionBehindDot(base: string, ext: string)
    requires '.' !in ext
    ensures var lower := LowerExt(base + "." + ext);
      |lower| == 1 + |ext| && lower[0] == '.' && forall i :: 0 <= i < |ext| ==> lower[i + 1] == ToLower(ext[i])
  {
    var name := base + "." + ext;
    if ext == "" {
      assert name[|name| - 1] == '.';
    } else {
      var init := ext[..|ext| - 1];
      assert name[|name| - 1] == ext[|ext| - 1] && ext[|ext| - 1] in ext;
      assert name[..|name| - 1] == base + "." + init;
      ExtensionBehindDot(base, init);
    }
  }

  lemma {:induction false} NoExtension(name: string)
    requires '.' !in name
    ensures LowerExt(name) == ""
  {
    if name != "" {
      assert name[|name| - 1] in name;
      NoExtension(name[..|name| - 1]);
    }
  }

  lemma {:induction false} LastDot(name: string) returns (base: string, ext: string)
    requires '.' in name
    ensures name == base + "." + ext && '.' !in ext
  {
    var last := name[|name| - 1];
    if last == '.' {
      base, ext := name[..|name| - 1], "";
    } else {
      base, ext := LastDot(name[..|name| - 1]);
      ext := ext + [last];
      assert name == name[..|name| - 1] + [last];
    }
  }

  lemma {:induction false} LowerIs(ext: string, lower: string, dotted: string)
    requires forall i :: 0 <= i < |lower| ==> 'a' <= lower[i] <= 'z'
    requires |dotted| == 1 + |ext| && dotted[0] == '.'
    requires forall i :: 0 <= i < |ext| ==> dotted[i + 1] == ToLower(ext[i])
    ensures dotted == "." + lower <==> UpToCase(ext, lower)
  {
    assert forall i :: 0 <= i < |lower| ==> ("." + lower)[i + 1] == lower[i];
  }

  /** The target files are those with bsl or os behind the last dot of their name, in any case. */
  lemma {:induction false} TargetsExactly(name: string)
    ensures IsTarget(name) <==> exists base, ext :: name == base + "." + ext && '.' !in ext
                                                    && (UpToCase(ext, "bsl") || UpToCase(ext, "os"))
  {
    if '.' !in name {
      NoExtension(name);
      forall base: string, ext: string
        ensures '.' in base + "." + ext
      {
        assert (base + "." + ext)[|base|] == '.';
      }
    } else {
      forall base, ext | name == base + "." + ext && '.' !in ext
        ensures IsTarget(name) <==> UpToCase(ext, "bsl") || UpToCase(ext, "os")
      {
        ExtensionBehindDot(base, ext);
        LowerIs(ext, "bsl", LowerExt(name));
        LowerIs(ext, "os", LowerExt(name));
        assert "." + "bsl" == ".bsl" && "." + "os" == ".os";
      }
      var base, ext := LastDot(name);
    }
  }

  /** Skipped are the hidden directories and two more. */
  lemma {:induction false} SkippedExactly(name: string)
    ensures IsSkipped(name) <==> (name != "" && name[0] == '.') || name in {"node_modules", "vendor"}
  {
  }

  /** The files a directory listing contributes, read off the tree by walking all of it. */
  ghost function FilesIn(path: Path, entries: seq<Entry>): set<Found>
    decreases entries
  {
    if entries == [] then {} else FilesOf(path, entries[0]) + FilesIn(path, entries[1..])
  }

  ghost function FilesOf(path: Path, e: Entry): set<Found>
    decreases e
  {
    match e
    case File(name, mtime) => if IsTarget(name) && mtime.Some? then {(path + [name], mtime.value)} else {}
    case Dir(name, readable, entries) =>
      if IsSkipped(name) || !readable then {} else FilesIn(path + [name], entries)
  }

  /** The same, read off one path: it leads through readable directories that are not skipped to a target file. */
  ghost predicate LeadsTo(entries: seq<Entry>, rest: Path, mtime: int)
    decreases rest
  {
    exists e :: e in entries && EntryLeadsTo(e, rest, mtime)
  }

  ghost predicate EntryLeadsTo(e: Entry, rest: Path, mtime: int)
    decreases rest, 0
  {
    && rest != [] && e.name == rest[0]
    && if |rest| == 1 then e.File? && IsTarget(e.name) && e.mtime == Some(mtime)
       else e.Dir? && !IsSkipped(e.name) && e.readable && LeadsTo(e.entries, rest[1..], mtime)
  }

  lemma {:induction false} FilesInEntries(path: Path, entries: seq<Entry>, f: Found)
    ensures f in FilesIn(path, entries) <==> exists e :: e in entries && f in FilesOf(path, e)
  {
    if entries != [] {
      FilesInEntries(path, entries[1..], f);
      if f in FilesOf(path, entries[0]) {
        assert entries[0] in entries;
      } else if e :| e in entries && f in FilesOf(path, e) {
        assert e in entries[1..];
      }
    }
  }

  /** A file is collected exactly when its own path qualifies. */
  lemma {:induction false} FilesInAreLedTo(path: Path, entries: seq<Entry>, rest: Path, mtime: int)
    ensures (path + rest, mtime) in FilesIn(path, entries) <==> LeadsTo(entries, rest, mtime)
    decreases |rest|, 1
  {
    var f := (path + rest, mtime);
    FilesInEntries(path, entries, f);
    forall e | e in entries
      ensures f in FilesOf(path, e) <==> EntryLeadsTo(e, rest, mtime)
    {
      EntryIsLedTo(path, e, rest, mtime);
    }
  }

  lemma {:induction false} EntryIsLedTo(path: Path, e: Entry, rest: Path, mtime: int)
    ensures (path + rest, mtime) in FilesOf(path, e) <==> EntryLeadsTo(e, rest, mtime)
    decreases |rest|, 0
  {
    if (path + rest, mtime) in FilesOf(path, e) {
      FilesOfBelow(path, e, (path + rest, mtime));
    }
    if rest != [] && rest[0] == e.name {
      assert path + rest == (path + [e.name]) + rest[1..];
      if e.File? {
        assert |rest| == 1 ==> rest == [e.name];
      } else {
        FilesInAreLedTo(path + [e.name], e.entries, rest[1..], mtime);
        assert |rest| == 1 ==> !LeadsTo(e.entries, rest[1..], mtime);
      }
    }
  }

  lemma {:induction false} FilesBelow(path: Path, entries: seq<Entry>, f: Found)
    requires f in FilesIn(path, entries)
    ensures |f.0| > |path| && f.0[..|path|] == path
    decreases entries
  {
    if f in FilesOf(path, entries[0]) {
      FilesOfBelow(path, entries[0], f);
    } else {
      FilesBelow(path, entries[1..], f);
    }
  }

  lemma {:induction false} FilesOfBelow(path: Path, e: Entry, f: Found)
    requires f in FilesOf(path, e)
    ensures |f.0| > |path| && f.0[..|path|] == path && f.0[|path|] == e.name
    decreases e
  {
    if e.Dir? {
      FilesBelow(path + [e.name], e.entries, f);
      assert f.0[..|path|] == f.0[..|path| + 1][..|path|];
      assert f.0[|path|] == f.0[..|path| + 1][|path|];
    }
  }

  /** Names are unique within each directory, as file systems guarantee. */
  predicate UniqueNames(entries: seq<Entry>)
    decreases entries
  {
    entries != [] ==>
      && (forall e :: e in entries[1..] ==> e.name != entries[0].name)
      && (entries[0].Dir? ==> UniqueNames(entries[0].entries))
      && UniqueNames(entries[1..])
  }

  ghost predicate Functional(found: set<Found>) {
    forall f, g :: f in found && g in found && f.0 == g.0 ==> f == g
  }

  lemma {:induction false} UniqueIsFunctional(path: Path, entries: seq<Entry>)
    requires UniqueNames(entries)
    ensures Functional(FilesIn(path, entries))
    decreases entries
  {
    if entries != [] {
      var e := entries[0];
      UniqueIsFunctional(path, entries[1..]);
      if e.Dir? {
        UniqueIsFunctional(path + [e.name], e.entries);
      }
      forall f, g | f in FilesOf(path, e) && g in FilesIn(path, entries[1..])
        ensures f.0 != g.0
      {
        FilesOfBelow(path, e, f);
        FilesInEntries(path, entries[1..], g);
        var d :| d in entries[1..] && g in FilesOf(path, d);
        FilesOfBelow(path, d, g);
      }
    }
  }

  // ----- the workers

  /** A directory whose remaining entries are still to be processed. */
  datatype Frame = Frame(path: Path, rest: seq<Entry>)

  /** An idle worker has no frames; the innermost directory of a busy one comes first. */
  datatype Scan = Scan(queue: seq<Frame>, workers: seq<seq<Frame>>, result: map<Path, int>)

  function Opened(path: Path, e: Entry): Frame
    requires e.Dir?
  {
    Frame(path + [e.name], if e.readable then e.entries else [])
  }

  ghost predicate TakeStep(s: Scan, t: Scan, i: nat) {
    && i < |s.workers| && s.workers[i] == [] && s.queue != []
    && t == s.(queue := s.queue[1..], workers := s.workers[i := [s.queue[0]]])
  }

  ghost predicate LeaveStep(s: Scan, t: Scan, i: nat) {
    && i < |s.workers| && s.workers[i] != [] && s.workers[i][0].rest == []
    && t == s.(workers := s.workers[i := s.workers[i][1..]])
  }

  /** The frames of a worker behind the entry it processes next. */
  function Behind(frames: seq<Frame>): seq<Frame>
    requires frames != [] && frames[0].rest != []
  {
    [Frame(frames[0].path, frames[0].rest[1..])] + frames[1..]
  }

  ghost predicate EntryStep(s: Scan, t: Scan, i: nat, capacity: nat) {
    && i < |s.workers| && s.workers[i] != [] && s.workers[i][0].rest != []
    && var frames := s.workers[i];
    && var path, e := frames[0].path, frames[0].rest[0];
    && var next := s.(workers := s.workers[i := Behind(frames)]);
    match e
    case File(name, mtime) =>
      t == if IsTarget(name) && mtime.Some? then next.(result := s.result[path + [name] := mtime.value]) else next
    case Dir(name, _, _) =>
      if IsSkipped(name) then t == next
      else
        || (|s.queue| < capacity && t == next.(queue := s.queue + [Opened(path, e)]))
        || t == s.(workers := s.workers[i := [Opened(path, e)] + Behind(frames)])
  }

  ghost predicate ScanStep(s: Scan, t: Scan, capacity: nat) {
    exists i: nat :: TakeStep(s, t, i) || LeaveStep(s, t, i) || EntryStep(s, t, i, capacity)
  }

  // ----- what is left to find

  ghost function LeftInFrames(frames: seq<Frame>): set<Found> {
    if frames == [] then {} else FilesIn(frames[0].path, frames[0].rest) + LeftInFrames(frames[1..])
  }

  ghost function LeftInWorkers(workers: seq<seq<Frame>>): set<Found> {
    if workers == [] then {} else LeftInFrames(workers[0]) + LeftInWorkers(workers[1..])
  }

  ghost function Pairs(result: map<Path, int>): set<Found> {
    set p | p in result :: (p, result[p])
  }

  /** Everything found or still to be found. */
  ghost function Account(s: Scan): set<Found> {
    Pairs(s.result) + LeftInFrames(s.queue) + LeftInWorkers(s.workers)
  }

  lemma {:induction false} LeftInFramesJoin(a: seq<Frame>, b: seq<Frame>)
    ensures LeftInFrames(a + b) == LeftInFrames(a) + LeftInFrames(b)
  {
    if a == [] {
      assert a + b == b;
    } else {
      assert (a + b)[1..] == a[1..] + b;
      LeftInFramesJoin(a[1..], b);
    }
  }

  lemma {:induction false} LeftInWorkersAt(workers: seq<seq<Frame>>, i: nat, frames: seq<Frame>)
    requires i < |workers|
    ensures LeftInWorkers(workers[i := frames]) + LeftInFrames(workers[i])
         == LeftInWorkers(workers) + LeftInFrames(frames)
    ensures LeftInFrames(workers[i]) <= LeftInWorkers(workers)
    ensures LeftInFrames(frames) <= LeftInWorkers(workers[i := frames])
  {
    var changed := workers[i := frames];
    if i == 0 {
      assert changed[1..] == workers[1..];
    } else {
      assert changed[1..] == workers[1..][i - 1 := frames];
      LeftInWorkersAt(workers[1..], i - 1, frames);
    }
  }

  lemma {:induction false} BehindLeft(frames: seq<Frame>)
    requires frames != [] && frames[0].rest != []
    ensures LeftInFrames(frames) == FilesOf(frames[0].path, frames[0].rest[0]) + LeftInFrames(Behind(frames))
  {
    assert Behind(frames)[1..] == frames[1..];
  }

  lemma {:induction false} OpenedLeft(path: Path, e: Entry)
    requires e.Dir? && !IsSkipped(e.name)
    ensures LeftInFrames([Opened(path, e)]) == FilesOf(path, e)
  {
    assert [Opened(path, e)][1..] == [];
  }

  lemma {:induction false} TakeKeeps(s: Scan, t: Scan, i: nat)
    requires TakeStep(s, t, i)
    ensures Account(t) == Account(s)
  {
    LeftInWorkersAt(s.workers, i, [s.queue[0]]);
    assert [s.queue[0]][1..] == [];
  }

  lemma {:induction false} LeaveKeeps(s: Scan, t: Scan, i: nat)
    requires LeaveStep(s, t, i)
    ensures Account(t) == Account(s)
  {
    LeftInWorkersAt(s.workers, i, s.workers[i][1..]);
  }

  lemma {:induction false} FoundJoins(result: map<Path, int>, f: Found, all: set<Found>)
    requires Pairs(result) <= all && f in all && Functional(all)
    ensures Pairs(result[f.0 := f.1]) == Pairs(result) + {f}
  {
    var r := result[f.0 := f.1];
    if f.0 in result {
      assert (f.0, result[f.0]) in Pairs(result);
    }
    forall g | g in Pairs(result) + {f}
      ensures g in Pairs(r)
    {
      assert g.0 in r && g == (g.0, r[g.0]);
    }
    forall g | g in Pairs(r)
      ensures g in Pairs(result) + {f}
    {
      assert g.0 != f.0 ==> g.0 in result && g == (g.0, result[g.0]);
    }
  }

  lemma {:induction false} FileKeeps(s: Scan, t: Scan, i: nat, capacity: nat)
    requires EntryStep(s, t, i, capacity) && s.workers[i][0].rest[0].File? && Functional(Account(s))
    ensures Account(t) == Account(s)
  {
    var frames := s.workers[i];
    var path, e := frames[0].path, frames[0].rest[0];
    BehindLeft(frames);
    LeftInWorkersAt(s.workers, i, Behind(frames));
    if IsTarget(e.name) && e.mtime.Some? {
      var f := (path + [e.name], e.mtime.value);
      assert f in FilesOf(path, e);
      FoundJoins(s.result, f, Account(s));
    }
  }

  lemma {:induction false} DirKeeps(s: Scan, t: Scan, i: nat, capacity: nat)
    requires EntryStep(s, t, i, capacity) && s.workers[i][0].rest[0].Dir?
    ensures Account(t) == Account(s)
  {
    var frames := s.workers[i];
    var path, e := frames[0].path, frames[0].rest[0];
    BehindLeft(frames);
    LeftInWorkersAt(s.workers, i, Behind(frames));
    if !IsSkipped(e.name) {
      OpenedLeft(path, e);
      LeftInFramesJoin(s.queue, [Opened(path, e)]);
      LeftInFramesJoin([Opened(path, e)], Behind(frames));
      LeftInWorkersAt(s.workers, i, [Opened(path, e)] + Behind(frames));
    }
  }

  /** Whoever takes, queues, inlines or finishes what: nothing is lost and nothing is invented. */
  lemma {:induction false} StepKeeps(s: Scan, t: Scan, capacity: nat)
    requires ScanStep(s, t, capacity) && Functional(Account(s))
    ensures Account(t) == Account(s)
  {
    var i: nat :| TakeStep(s, t, i) || LeaveStep(s, t, i) || EntryStep(s, t, i, capacity);
    if TakeStep(s, t, i) {
      TakeKeeps(s, t, i);
    } else if LeaveStep(s, t, i) {
      LeaveKeeps(s, t, i);
    } else if s.workers[i][0].rest[0].File? {
      FileKeeps(s, t, i, capacity);
    } else {
      DirKeeps(s, t, i, capacity);
    }
  }

  // ----- termination

  ghost function Weight(entries: seq<Entry>): nat
    decreases entries
  {
    if entries == [] then 0 else EntryWeight(entries[0]) + Weight(entries[1..])
  }

  ghost function EntryWeight(e: Entry): nat
    decreases e
  {
    if e.File? then 1 else 3 + Weight(e.entries)
  }

  /** Each directory still costs leaving it, and `extra` more while it waits in the queue. */
  ghost function FramesWeight(frames: seq<Frame>, extra: nat): nat {
    if frames == [] then 0 else 1 + extra + Weight(frames[0].rest) + FramesWeight(frames[1..], extra)
  }

  ghost function WorkersWeight(workers: seq<seq<Frame>>): nat {
    if workers == [] then 0 else FramesWeight(workers[0], 0) + WorkersWeight(workers[1..])
  }

  ghost function WorkLeft(s: Scan): nat {
    FramesWeight(s.queue, 1) + WorkersWeight(s.workers)
  }

  lemma {:induction false} WorkersWeightAt(workers: seq<seq<Frame>>, i: nat, frames: seq<Frame>)
    requires i < |workers|
    ensures WorkersWeight(workers[i := frames]) + FramesWeight(workers[i], 0)
         == WorkersWeight(workers) + FramesWeight(frames, 0)
  {
    var changed := workers[i := frames];
    if i == 0 {
      assert changed[1..] == workers[1..];
    } else {
      assert changed[1..] == workers[1..][i - 1 := frames];
      WorkersWeightAt(workers[1..], i - 1, frames);
    }
  }

  lemma {:induction false} FramesWeightJoin(a: seq<Frame>, b: seq<Frame>, extra: nat)
    ensures FramesWeight(a + b, extra) == FramesWeight(a, extra) + FramesWeight(b, extra)
  {
    if a == [] {
      assert a + b == b;
    } else {
      assert (a + b)[1..] == a[1..] + b;
      FramesWeightJoin(a[1..], b, extra);
    }
  }

  lemma {:induction false} OpenedWeight(path: Path, e: Entry, extra: nat)
    requires e.Dir?
    ensures FramesWeight([Opened(path, e)], extra) <= EntryWeight(e) - 2 + extra
  {
    assert [Opened(path, e)][1..] == [];
  }

  lemma {:induction false} BehindWeight(frames: seq<Frame>)
    requires frames != [] && frames[0].rest != []
    ensures FramesWeight(frames, 0) == EntryWeight(frames[0].rest[0]) + FramesWeight(Behind(frames), 0)
    ensures EntryWeight(frames[0].rest[0]) > 0
  {
    assert Behind(frames)[1..] == frames[1..];
  }

  lemma {:induction false} EntryStepDecreases(s: Scan, t: Scan, i: nat, capacity: nat)
    requires EntryStep(s, t, i, capacity)
    ensures WorkLeft(t) < WorkLeft(s)
  {
    var frames := s.workers[i];
    var path, e := frames[0].path, frames[0].rest[0];
    BehindWeight(frames);
    WorkersWeightAt(s.workers, i, Behind(frames));
    if e.Dir? {
      OpenedWeight(path, e, 0);
      OpenedWeight(path, e, 1);
      FramesWeightJoin(s.queue, [Opened(path, e)], 1);
      FramesWeightJoin([Opened(path, e)], Behind(frames), 0);
      WorkersWeightAt(s.workers, i, [Opened(path, e)] + Behind(frames));
    }
  }

  /** Every step uses up work, so a scan makes at most as many steps as there is work at the start. */
  lemma {:induction false} StepDecreases(s: Scan, t: Scan, capacity: nat)
    requires ScanStep(s, t, capacity)
    ensures WorkLeft(t) < WorkLeft(s)
  {
    var i: nat :| TakeStep(s, t, i) || LeaveStep(s, t, i) || EntryStep(s, t, i, capacity);
    if TakeStep(s, t, i) {
      WorkersWeightAt(s.workers, i, [s.queue[0]]);
      assert [s.queue[0]][1..] == [];
    } else if LeaveStep(s, t, i) {
      WorkersWeightAt(s.workers, i, s.workers[i][1..]);
    } else {
      EntryStepDecreases(s, t, i, capacity);
    }
  }

  // ----- the monitor, and the queue it closes

  datatype Monitor = Watching | SawEmpty | Closed

  /** Which workers are counted as active; a send on the closed queue crashes the process. */
  datatype System = System(scan: Scan, counted: seq<bool>, monitor: Monitor, crashed: bool)

  predicate Enterable(e: Entry) {
    e.Dir? && !IsSkipped(e.name)
  }

  /** The next entry of worker `i` is a subdirectory to be queued or processed in place. */
  predicate AtSubdirectory(s: Scan, i: nat) {
    i < |s.workers| && s.workers[i] != [] && s.workers[i][0].rest != [] && Enterable(s.workers[i][0].rest[0])
  }

  ghost predicate WorkerStep(s: System, t: System, i: nat, capacity: nat) {
    && i < |s.counted| == |s.scan.workers| && t.monitor == s.monitor
    && if s.counted[i] then
         || (s.scan.workers[i] == [] && t == s.(counted := s.counted[i := false]))
         || (s.monitor.Closed? && AtSubdirectory(s.scan, i) && t == s.(crashed := true))
         || (!(s.monitor.Closed? && AtSubdirectory(s.scan, i)) && t == s.(scan := t.scan)
             && (LeaveStep(s.scan, t.scan, i) || EntryStep(s.scan, t.scan, i, capacity)))
       else
         || (s.scan.workers[i] != [] && t == s.(counted := s.counted[i := true]))
         || (t == s.(scan := t.scan) && TakeStep(s.scan, t.scan, i))
  }

  ghost predicate MonitorStep(s: System, t: System) {
    match s.monitor
    case Watching => s.scan.queue == [] && t == s.(monitor := SawEmpty)
    case SawEmpty => t == s.(monitor := if true in s.counted then Watching else Closed)
    case Closed => false
  }

  ghost predicate SystemStep(s: System, t: System, capacity: nat) {
    !s.crashed && (MonitorStep(s, t) || exists i: nat :: WorkerStep(s, t, i, capacity))
  }

  predicate Idle(s: System) {
    && s.scan.queue == [] && true !in s.counted
    && forall i :: 0 <= i < |s.scan.workers| ==> s.scan.workers[i] == []
  }

  /** The queue is closed and drained and all workers have left. */
  predicate Returned(s: System) {
    s.monitor.Closed? && Idle(s) && !s.crashed
  }

  function Begin(root: Path, entries: seq<Entry>, workers: nat): System {
    System(Scan([Frame(root, entries)], seq(workers, _ => []), map[]), seq(workers, _ => false), Watching, false)
  }

  ghost predicate IsScan(root: Path, entries: seq<Entry>, workers: nat, capacity: nat, run: seq<System>) {
    && run != [] && run[0] == Begin(root, entries, workers)
    && forall n :: 0 <= n < |run| - 1 ==> SystemStep(run[n], run[n + 1], capacity)
  }

  lemma {:induction false} NothingLeft(workers: seq<seq<Frame>>)
    requires forall i :: 0 <= i < |workers| ==> workers[i] == []
    ensures LeftInWorkers(workers) == {}
  {
    if workers != [] {
      NothingLeft(workers[1..]);
    }
  }

  lemma {:induction false} BeginAccount(root: Path, entries: seq<Entry>, workers: nat)
    ensures Account(Begin(root, entries, workers).scan) == FilesIn(root, entries)
  {
    var s := Begin(root, entries, workers).scan;
    NothingLeft(s.workers);
    assert s.queue[1..] == [] && s.queue[0] == Frame(root, entries);
    assert LeftInFrames(s.queue) == FilesIn(root, entries) + LeftInFrames([]);
  }

  lemma {:induction false} BeginWork(root: Path, entries: seq<Entry>, workers: nat)
    ensures WorkLeft(Begin(root, entries, workers).scan) == 2 + Weight(entries)
  {
    var s := Begin(root, entries, workers).scan;
    NoWork(s.workers);
    assert s.queue[1..] == [] && s.queue[0] == Frame(root, entries);
    assert FramesWeight(s.queue, 1) == 2 + Weight(entries) + FramesWeight([], 1);
  }

  lemma {:induction false} NoWork(workers: seq<seq<Frame>>)
    requires forall i :: 0 <= i < |workers| ==> workers[i] == []
    ensures WorkersWeight(workers) == 0
  {
    if workers != [] {
      NoWork(workers[1..]);
    }
  }

  /** A step moves the tree being scanned by one step of a worker, or not at all. */
  lemma {:induction false} SystemScans(s: System, t: System, capacity: nat)
    requires SystemStep(s, t, capacity)
    ensures t.scan == s.scan || ScanStep(s.scan, t.scan, capacity)
    ensures |t.counted| == |s.counted|
  {
    if !MonitorStep(s, t) {
      var i: nat :| WorkerStep(s, t, i, capacity);
    }
  }

  lemma {:induction false} RunKeeps(root: Path, entries: seq<Entry>, workers: nat, capacity: nat, run: seq<System>,
                                    n: nat)
    requires IsScan(root, entries, workers, capacity, run) && n < |run| && UniqueNames(entries)
    ensures Account(run[n].scan) == FilesIn(root, entries)
  {
    if n == 0 {
      BeginAccount(root, entries, workers);
    } else {
      RunKeeps(root, entries, workers, capacity, run, n - 1);
      UniqueIsFunctional(root, entries);
      SystemScans(run[n - 1], run[n], capacity);
      if run[n].scan != run[n - 1].scan {
        StepKeeps(run[n - 1].scan, run[n].scan, capacity);
      }
    }
  }

  /**
   Under every schedule, every choice of queueing or inlining and whenever the monitor looks: a scan that
   returns has found exactly the target files outside skipped and unreadable directories.
   */
  lemma {:induction false} ScanFindsExactly(root: Path, entries: seq<Entry>, workers: nat, capacity: nat,
                                            run: seq<System>, n: nat, rest: Path, mtime: int)
    requires IsScan(root, entries, workers, capacity, run) && n < |run| && UniqueNames(entries) && Returned(run[n])
    ensures var result := run[n].scan.result;
      && Pairs(result) == FilesIn(root, entries)
      && (root + rest in result && result[root + rest] == mtime <==> LeadsTo(entries, rest, mtime))
  {
    var s := run[n].scan;
    RunKeeps(root, entries, workers, capacity, run, n);
    NothingLeft(s.workers);
    FilesInAreLedTo(root, entries, rest, mtime);
    assert (root + rest, mtime) in Pairs(s.result) <==> root + rest in s.result && s.result[root + rest] == mtime;
  }

  // ----- termination of the system

  /** What a worker still has to do to its place in the count. */
  function CountLeft(workers: seq<seq<Frame>>, counted: seq<bool>): nat
    requires |workers| == |counted|
  {
    if workers == [] then 0
    else (if counted[0] then 1 else if workers[0] != [] then 2 else 0) + CountLeft(workers[1..], counted[1..])
  }

  lemma {:induction false} CountLeftAt(workers: seq<seq<Frame>>, counted: seq<bool>, i: nat, frames: seq<Frame>,
                                       c: bool)
    requires i < |workers| == |counted|
    ensures CountLeft(workers[i := frames], counted[i := c])
              + (if counted[i] then 1 else if workers[i] != [] then 2 else 0)
         == CountLeft(workers, counted) + (if c then 1 else if frames != [] then 2 else 0)
  {
    var changed, flags := workers[i := frames], counted[i := c];
    if i == 0 {
      assert changed[1..] == workers[1..] && flags[1..] == counted[1..];
    } else {
      assert changed[1..] == workers[1..][i - 1 := frames] && flags[1..] == counted[1..][i - 1 := c];
      CountLeftAt(workers[1..], counted[1..], i - 1, frames, c);
    }
  }

  ghost function Measure(s: System): nat
    requires |s.counted| == |s.scan.workers|
  {
    3 * WorkLeft(s.scan) + CountLeft(s.scan.workers, s.counted) + if s.crashed then 0 else 1
  }

  lemma {:induction false} ScanWorkerAt(s: Scan, t: Scan, i: nat, capacity: nat)
    requires TakeStep(s, t, i) || LeaveStep(s, t, i) || EntryStep(s, t, i, capacity)
    ensures i < |s.workers| && t.workers == s.workers[i := t.workers[i]]
  {
  }

  /** Every step of a worker uses up some of what there is to do; the monitor's readings change nothing. */
  lemma {:induction false} WorkerStepDecreases(s: System, t: System, i: nat, capacity: nat)
    requires !s.crashed && WorkerStep(s, t, i, capacity)
    ensures |t.counted| == |t.scan.workers| && Measure(t) < Measure(s)
  {
    var workers := s.scan.workers;
    if t.scan == s.scan {
      CountLeftAt(workers, s.counted, i, workers[i], t.counted[i]);
      assert workers[i := workers[i]] == workers && s.counted[i := t.counted[i]] == t.counted;
    } else {
      ScanWorkerAt(s.scan, t.scan, i, capacity);
      CountLeftAt(workers, s.counted, i, t.scan.workers[i], s.counted[i]);
      assert s.counted[i := s.counted[i]] == s.counted;
      StepDecreases(s.scan, t.scan, capacity);
    }
  }

  /** How many of the first `n` steps of a run were made by workers. */
  function WorkerSteps(run: seq<System>, n: nat): nat
    requires n < |run|
  {
    if n == 0 then 0 else WorkerSteps(run, n - 1) + if run[n].monitor == run[n - 1].monitor then 1 else 0
  }

  lemma {:induction false} StepsUseWork(root: Path, entries: seq<Entry>, workers: nat, capacity: nat,
                                        run: seq<System>, n: nat)
    requires IsScan(root, entries, workers, capacity, run) && n < |run|
    ensures |run[n].counted| == |run[n].scan.workers| == workers
    ensures Measure(run[n]) + WorkerSteps(run, n) <= Measure(run[0])
  {
    if n > 0 {
      StepsUseWork(root, entries, workers, capacity, run, n - 1);
      var s, t := run[n - 1], run[n];
      assert SystemStep(s, run[n - 1 + 1], capacity);
      if !MonitorStep(s, t) {
        var i: nat :| WorkerStep(s, t, i, capacity);
        WorkerStepDecreases(s, t, i, capacity);
      }
    }
  }

  lemma {:induction false} BeginCounts(root: Path, entries: seq<Entry>, workers: nat)
    ensures CountLeft(Begin(root, entries, workers).scan.workers, Begin(root, entries, workers).counted) == 0
  {
    var s := Begin(root, entries, workers);
    NothingToCount(s.scan.workers, s.counted);
  }

  lemma {:induction false} NothingToCount(workers: seq<seq<Frame>>, counted: seq<bool>)
    requires |workers| == |counted|
    requires forall i :: 0 <= i < |workers| ==> workers[i] == [] && !counted[i]
    ensures CountLeft(workers, counted) == 0
  {
    if workers != [] {
      NothingToCount(workers[1..], counted[1..]);
    }
  }

  /** No schedule keeps the workers going for ever: the tree bounds the number of their steps. */
  lemma {:induction false} ScanEnds(root: Path, entries: seq<Entry>, workers: nat, capacity: nat, run: seq<System>)
    requires IsScan(root, entries, workers, capacity, run)
    ensures WorkerSteps(run, |run| - 1) <= 3 * (2 + Weight(entries)) + 1
  {
    StepsUseWork(root, entries, workers, capacity, run, |run| - 1);
    BeginWork(root, entries, workers);
    BeginCounts(root, entries, workers);
  }

  /** While a scan has neither returned nor crashed some worker can move, or all are idle and the monitor can. */
  lemma {:induction false} NeverStuck(s: System, capacity: nat)
    requires |s.counted| == |s.scan.workers| > 0 && !Returned(s) && !s.crashed
    ensures exists t :: SystemStep(s, t, capacity) && (t.monitor == s.monitor || Idle(s))
  {
    if i: nat :| i < |s.counted| && (s.counted[i] || s.scan.workers[i] != []) {
      WorkerMoves(s, i, capacity);
    } else if s.scan.queue != [] {
      var t := s.(scan := s.scan.(queue := s.scan.queue[1..], workers := s.scan.workers[0 := [s.scan.queue[0]]]));
      assert TakeStep(s.scan, t.scan, 0);
      assert WorkerStep(s, t, 0, capacity);
    } else {
      var t := s.(monitor := if s.monitor == Watching then SawEmpty else Closed);
      assert MonitorStep(s, t);
    }
  }

  lemma {:induction false} WorkerMoves(s: System, i: nat, capacity: nat)
    requires !s.crashed && i < |s.counted| == |s.scan.workers| && (s.counted[i] || s.scan.workers[i] != [])
    ensures exists t :: SystemStep(s, t, capacity) && t.monitor == s.monitor
  {
    var frames := s.scan.workers[i];
    if !s.counted[i] || frames == [] {
      assert WorkerStep(s, s.(counted := s.counted[i := !s.counted[i]]), i, capacity);
    } else if frames[0].rest == [] {
      var t := s.(scan := s.scan.(workers := s.scan.workers[i := frames[1..]]));
      assert LeaveStep(s.scan, t.scan, i);
      assert WorkerStep(s, t, i, capacity);
    } else if s.monitor.Closed? && AtSubdirectory(s.scan, i) {
      assert WorkerStep(s, s.(crashed := true), i, capacity);
    } else {
      var path, e := frames[0].path, frames[0].rest[0];
      var next := s.scan.(workers := s.scan.workers[i := Behind(frames)]);
      var moved := match e
                   case File(name, mtime) =>
                     if IsTarget(name) && mtime.Some? then next.(result := s.scan.result[path + [name] := mtime.value])
                     else next
                   case Dir(name, _, _) =>
                     if IsSkipped(name) then next
                     else s.scan.(workers := s.scan.workers[i := [Opened(path, e)] + Behind(frames)]);
      assert EntryStep(s.scan, moved, i, capacity);
      assert WorkerStep(s, s.(scan := moved), i, capacity);
    }
  }

  /** Once everything is idle, two readings of the monitor end the scan. */
  lemma {:induction false} IdleReturns(s: System, t: System, u: System)
    requires Idle(s) && !s.crashed && s.monitor == Watching && MonitorStep(s, t) && MonitorStep(t, u)
    ensures Returned(u)
  {
  }

  // ----- closing too early

  /** The subdirectories that still stand in the listings being worked on. */
  function Subdirectories(entries: seq<Entry>): nat {
    if entries == [] then 0 else (if Enterable(entries[0]) then 1 else 0) + Subdirectories(entries[1..])
  }

  function SubdirectoriesIn(frames: seq<Frame>): nat {
    if frames == [] then 0 else Subdirectories(frames[0].rest) + SubdirectoriesIn(frames[1..])
  }

  function SubdirectoriesAt(workers: seq<seq<Frame>>): nat {
    if workers == [] then 0 else SubdirectoriesIn(workers[0]) + SubdirectoriesAt(workers[1..])
  }

  function SubdirectoriesLeft(s: Scan): nat {
    SubdirectoriesIn(s.queue) + SubdirectoriesAt(s.workers)
  }

  lemma {:induction false} SubdirectoriesChange(workers: seq<seq<Frame>>, i: nat, frames: seq<Frame>)
    requires i < |workers|
    ensures SubdirectoriesAt(workers[i := frames]) + SubdirectoriesIn(workers[i])
         == SubdirectoriesAt(workers) + SubdirectoriesIn(frames)
    ensures SubdirectoriesAt(workers) >= SubdirectoriesIn(workers[i])
  {
    var changed := workers[i := frames];
    if i == 0 {
      assert changed[1..] == workers[1..];
    } else {
      assert changed[1..] == workers[1..][i - 1 := frames];
      SubdirectoriesChange(workers[1..], i - 1, frames);
    }
  }

  lemma {:induction false} BehindSubdirectories(frames: seq<Frame>)
    requires frames != [] && frames[0].rest != []
    ensures SubdirectoriesIn(frames)
         == SubdirectoriesIn(Behind(frames)) + if Enterable(frames[0].rest[0]) then 1 else 0
  {
    assert Behind(frames)[1..] == frames[1..];
  }

  /** With the queue closed, the workers can neither add nor get past a subdirectory without a crash. */
  lemma {:induction false} ClosedKeeps(s: Scan, t: Scan, i: nat, capacity: nat)
    requires TakeStep(s, t, i) || LeaveStep(s, t, i) || EntryStep(s, t, i, capacity)
    requires !AtSubdirectory(s, i)
    ensures SubdirectoriesLeft(t) == SubdirectoriesLeft(s)
  {
    if TakeStep(s, t, i) {
      SubdirectoriesChange(s.workers, i, [s.queue[0]]);
      assert [s.queue[0]][1..] == [];
    } else if LeaveStep(s, t, i) {
      SubdirectoriesChange(s.workers, i, s.workers[i][1..]);
    } else {
      SubdirectoriesChange(s.workers, i, Behind(s.workers[i]));
      BehindSubdirectories(s.workers[i]);
    }
  }

  lemma {:induction false} ClosedStep(s: System, t: System, capacity: nat)
    requires s.monitor.Closed? && SystemStep(s, t, capacity)
    ensures t.monitor.Closed? && SubdirectoriesLeft(t.scan) == SubdirectoriesLeft(s.scan)
    ensures t.crashed ==> SubdirectoriesLeft(s.scan) > 0
  {
    var i: nat :| WorkerStep(s, t, i, capacity);
    if t.crashed {
      SubdirectoriesChange(s.scan.workers, i, []);
      BehindSubdirectories(s.scan.workers[i]);
    } else if t.scan != s.scan {
      if TakeStep(s.scan, t.scan, i) {
        assert !AtSubdirectory(s.scan, i);
      }
      ClosedKeeps(s.scan, t.scan, i, capacity);
    }
  }

  lemma {:induction false} ClosedRun(run: seq<System>, capacity: nat, m: nat, n: nat)
    requires forall k :: 0 <= k < |run| - 1 ==> SystemStep(run[k], run[k + 1], capacity)
    requires m <= n < |run| && run[m].monitor.Closed? && !run[m].crashed
    ensures run[n].monitor.Closed? && SubdirectoriesLeft(run[n].scan) == SubdirectoriesLeft(run[m].scan)
    ensures run[n].crashed ==> SubdirectoriesLeft(run[m].scan) > 0
  {
    if m < n {
      ClosedRun(run, capacity, m, n - 1);
      assert SystemStep(run[n - 1], run[n - 1 + 1], capacity);
      ClosedStep(run[n - 1], run[n], capacity);
    }
  }

  lemma {:induction false} IdleHasNone(s: System)
    requires Idle(s)
    ensures SubdirectoriesLeft(s.scan) == 0
  {
    NoneLeft(s.scan.workers);
  }

  lemma {:induction false} NoneLeft(workers: seq<seq<Frame>>)
    requires forall i :: 0 <= i < |workers| ==> workers[i] == []
    ensures SubdirectoriesAt(workers) == 0
  {
    if workers != [] {
      NoneLeft(workers[1..]);
    }
  }

  /**
   The monitor may close the queue while a worker that has taken a directory is not counted yet, or while
   a directory was queued between its two readings. What then happens is settled at that moment: the scan
   cannot crash if no subdirectory was left in the listings, and cannot return if one was.
   */
  lemma {:induction false} ClosingDecides(run: seq<System>, capacity: nat, m: nat, n: nat)
    requires forall k :: 0 <= k < |run| - 1 ==> SystemStep(run[k], run[k + 1], capacity)
    requires m <= n < |run| && run[m].monitor.Closed? && !run[m].crashed
    ensures SubdirectoriesLeft(run[m].scan) == 0 ==> !run[n].crashed
    ensures SubdirectoriesLeft(run[m].scan) > 0 ==> !Returned(run[n])
  {
    ClosedRun(run, capacity, m, n);
    if Returned(run[n]) {
      IdleHasNone(run[n]);
    }
  }

  ghost predicate CanMove(s: System, capacity: nat) {
    exists t :: SystemStep(s, t, capacity)
  }

  /** A scan with a closed queue that can go no further has crashed or returned, as settled when it was closed. */
  lemma {:induction false} ClosedScanEnds(root: Path, entries: seq<Entry>, workers: nat, capacity: nat,
                                          run: seq<System>, m: nat)
    requires IsScan(root, entries, workers, capacity, run) && workers > 0 && !CanMove(run[|run| - 1], capacity)
    requires m < |run| && run[m].monitor.Closed? && !run[m].crashed
    ensures run[|run| - 1].crashed <==> SubdirectoriesLeft(run[m].scan) > 0
    ensures Returned(run[|run| - 1]) <==> SubdirectoriesLeft(run[m].scan) == 0
  {
    var last := run[|run| - 1];
    StepsUseWork(root, entries, workers, capacity, run, |run| - 1);
    ClosingDecides(run, capacity, m, |run| - 1);
    if !last.crashed && !Returned(last) {
      NeverStuck(last, capacity);
    }
  }

  // ----- exactly which directories a scan can crash on

  /** While no subdirectory is left in any listing, none comes up. */
  lemma {:induction false} NoneComesUp(s: System, t: System, capacity: nat)
    requires SystemStep(s, t, capacity) && SubdirectoriesLeft(s.scan) == 0
    ensures SubdirectoriesLeft(t.scan) == 0 && !t.crashed
  {
    if !MonitorStep(s, t) {
      var i: nat :| WorkerStep(s, t, i, capacity);
      SubdirectoriesChange(s.scan.workers, i, []);
      if AtSubdirectory(s.scan, i) {
        BehindSubdirectories(s.scan.workers[i]);
        assert false;
      }
      if t.scan != s.scan {
        ClosedKeeps(s.scan, t.scan, i, capacity);
      }
    }
  }

  lemma {:induction false} FlatScanRuns(root: Path, entries: seq<Entry>, workers: nat, capacity: nat,
                                        run: seq<System>, n: nat)
    requires IsScan(root, entries, workers, capacity, run) && n < |run| && Subdirectories(entries) == 0
    ensures SubdirectoriesLeft(run[n].scan) == 0 && !run[n].crashed
  {
    if n == 0 {
      BeginSubdirectories(root, entries, workers);
    } else {
      FlatScanRuns(root, entries, workers, capacity, run, n - 1);
      assert SystemStep(run[n - 1], run[n - 1 + 1], capacity);
      NoneComesUp(run[n - 1], run[n], capacity);
    }
  }

  lemma {:induction false} BeginSubdirectories(root: Path, entries: seq<Entry>, workers: nat)
    ensures SubdirectoriesLeft(Begin(root, entries, workers).scan) == Subdirectories(entries)
  {
    var s := Begin(root, entries, workers).scan;
    NoneLeft(s.workers);
    assert s.queue[1..] == [] && s.queue[0] == Frame(root, entries);
    assert SubdirectoriesIn(s.queue) == Subdirectories(entries) + SubdirectoriesIn([]);
  }

  /** From any state with a closed queue the workers can go on until they have crashed or all returned. */
  lemma {:induction false} GoesOn(s: System, capacity: nat) returns (run: seq<System>)
    requires s.monitor.Closed? && |s.counted| == |s.scan.workers| > 0
    ensures run != [] && run[0] == s && (run[|run| - 1].crashed || Returned(run[|run| - 1]))
    ensures forall k :: 0 <= k < |run| - 1 ==> SystemStep(run[k], run[k + 1], capacity)
    decreases Measure(s)
  {
    run := [s];
    if !s.crashed && !Returned(s) {
      NeverStuck(s, capacity);
      var t :| SystemStep(s, t, capacity);
      var i: nat :| WorkerStep(s, t, i, capacity);
      WorkerStepDecreases(s, t, i, capacity);
      SystemScans(s, t, capacity);
      var rest := GoesOn(t, capacity);
      run := [s] + rest;
    }
  }

  /** The monitor looks between a worker taking the root and counting itself. */
  lemma {:induction false} EarlyClose(root: Path, entries: seq<Entry>, workers: nat, capacity: nat)
      returns (run: seq<System>)
    requires workers > 0
    ensures IsScan(root, entries, workers, capacity, run)
    ensures var s := run[|run| - 1];
      && s.monitor.Closed? && !s.crashed && |s.counted| == |s.scan.workers| == workers
      && SubdirectoriesLeft(s.scan) == Subdirectories(entries)
  {
    var s0 := Begin(root, entries, workers);
    var s1 := s0.(scan := Scan([], s0.scan.workers[0 := [Frame(root, entries)]], map[]));
    var s2 := s1.(monitor := SawEmpty);
    var s3 := s2.(monitor := Closed);
    assert TakeStep(s0.scan, s1.scan, 0) && WorkerStep(s0, s1, 0, capacity);
    assert MonitorStep(s1, s2) && MonitorStep(s2, s3);
    BeginSubdirectories(root, entries, workers);
    ClosedKeeps(s0.scan, s1.scan, 0, capacity);
    run := [s0, s1, s2, s3];
  }

  /** Some schedule crashes the scan exactly when the root itself has a subdirectory that is not skipped. */
  lemma {:induction false} CrashesExactly(root: Path, entries: seq<Entry>, workers: nat, capacity: nat)
    requires workers > 0
    ensures (exists run: seq<System> :: IsScan(root, entries, workers, capacity, run) && run[|run| - 1].crashed)
       <==> exists e :: e in entries && Enterable(e)
  {
    HasSubdirectory(entries);
    if run: seq<System> :| IsScan(root, entries, workers, capacity, run) && run[|run| - 1].crashed {
      if Subdirectories(entries) == 0 {
        FlatScanRuns(root, entries, workers, capacity, run, |run| - 1);
        assert false;
      }
    }
    if Subdirectories(entries) > 0 {
      var head := EarlyClose(root, entries, workers, capacity);
      var tail := GoesOn(head[|head| - 1], capacity);
      ClosingDecides(tail, capacity, 0, |tail| - 1);
      var run := head + tail[1..];
      assert IsScan(root, entries, workers, capacity, run) by {
        forall n | 0 <= n < |run| - 1
          ensures SystemStep(run[n], run[n + 1], capacity)
        {
          if n >= |head| - 1 {
            assert run[n] == tail[n - |head| + 1] && run[n + 1] == tail[n - |head| + 1 + 1];
          }
        }
      }
      assert run[|run| - 1] == tail[|tail| - 1];
    }
  }

  lemma {:induction false} HasSubdirectory(entries: seq<Entry>)
    ensures Subdirectories(entries) > 0 <==> exists e :: e in entries && Enterable(e)
  {
    if entries != [] {
      HasSubdirectory(entries[1..]);
      assert forall e :: e in entries <==> e == entries[0] || e in entries[1..];
    }
  }

  /** A run that crashes: the only worker has taken the root and is not counted yet when the monitor looks. */
  lemma {:induction false} EarlyCloseCrashes() returns (run: seq<System>)
    ensures IsScan([], [Dir("d", true, [])], 1, 1000, run) && run[|run| - 1].crashed
  {
    var root := Frame([], [Dir("d", true, [])]);
    var s0 := Begin([], [Dir("d", true, [])], 1);
    var s1 := s0.(scan := Scan([], [[root]], map[]));
    var s2 := s1.(monitor := SawEmpty);
    var s3 := s2.(monitor := Closed);
    var s4 := s3.(counted := [true]);
    var s5 := s4.(crashed := true);
    assert s0.scan.workers == [[]] && s0.counted == [false];
    assert [[]][0 := [root]] == [[root]] && [root][1..] == [];
    assert TakeStep(s0.scan, s1.scan, 0) && WorkerStep(s0, s1, 0, 1000);
    assert MonitorStep(s1, s2) && MonitorStep(s2, s3);
    assert WorkerStep(s3, s4, 0, 1000);
    assert !IsSkipped("d") by { assert "d"[0] != "."[0] && |"d"| == 1; }
    assert AtSubdirectory(s4.scan, 0) && WorkerStep(s4, s5, 0, 1000);
    run := [s0, s1, s2, s3, s4, s5];
  }
}
