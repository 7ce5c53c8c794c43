/**
 From file system observations to didChangeWatchedFiles batches: the snapshot comparison of the
 polling watcher (polling_watcher.go, checkForChanges) and the event coalescer of the fsnotify
 watcher (main.go, runFsnotifyWatcher). Both are in cmd/lsp-session-manager.
 */
module FileWatch {
  import opened Wrappers

  const CREATED := 1
  const CHANGED := 2
  const DELETED := 3

  datatype FileChange = FileChange(uri: string, kind: int)

  type Snapshot = map<string, int>

  function PathToUri(path: string): string {
    "file://" + if "/" <= path then path else "/" + path
  }

  /** Absolute paths keep their identity as URIs. */
  lemma UriIsInjective(p: string, q: string)
    requires "/" <= p && "/" <= q && PathToUri(p) == PathToUri(q)
    ensures p == q
  {
    assert PathToUri(p)[7..] == p && PathToUri(q)[7..] == q;
  }

  // ----- polling: comparing two snapshots

  /** What one poll must say about one path, if anything. */
  function Verdict(before: Snapshot, after: Snapshot, path: string): Option<int> {
    if path in after && path !in before then Some(CREATED)
    else if path in after && after[path] != before[path] then Some(CHANGED)
    else if path in before && path !in after then Some(DELETED)
    else None
  }

  /** The batch has one entry, of the right type, for each path with a verdict and none for any other. */
  ghost predicate Reports(paths: seq<string>, batch: seq<FileChange>, before: Snapshot, after: Snapshot) {
    && |paths| == |batch|
    && (forall i, j :: 0 <= i < j < |paths| ==> paths[i] != paths[j])
    && (forall i :: 0 <= i < |paths| ==>
          Verdict(before, after, paths[i]) == Some(batch[i].kind) && batch[i].uri == PathToUri(paths[i]))
    && (forall p :: Verdict(before, after, p).Some? ==> p in paths)
  }

  /** The part of a report about the paths that have been looked at. */
  ghost predicate ReportsSoFar(paths: seq<string>, batch: seq<FileChange>, before: Snapshot, after: Snapshot,
                               done: set<string>) {
    && |paths| == |batch|
    && (forall i, j :: 0 <= i < j < |paths| ==> paths[i] != paths[j])
    && (forall i :: 0 <= i < |paths| ==>
          && paths[i] in done && batch[i].uri == PathToUri(paths[i])
          && Verdict(before, after, paths[i]) == Some(batch[i].kind))
    && (forall p :: p in done && Verdict(before, after, p).Some? ==> p in paths)
  }

  class PollingWatcher {
    var fileMap: Snapshot

    constructor (initial: Snapshot)
      ensures fileMap == initial
    {
      fileMap := initial;
    }

    /** The changes sent, nothing while the server is indexing; the new snapshot is kept either way. */
    method CheckForChanges(newFiles: Snapshot, isIndexing: bool)
      returns (sent: Option<seq<FileChange>>, ghost paths: seq<string>, ghost changes: seq<FileChange>)
      modifies this
      ensures fileMap == newFiles
      ensures Reports(paths, changes, old(fileMap), newFiles)
      ensures sent == if changes != [] && !isIndexing then Some(changes) else None
    {
      var oldFiles := fileMap;
      fileMap := newFiles;
      var batch: seq<FileChange> := [];
      paths := [];
      var remaining := newFiles.Keys;
      while remaining != {}
        invariant remaining <= newFiles.Keys
        invariant ReportsSoFar(paths, batch, oldFiles, newFiles, newFiles.Keys - remaining)
      {
        var path :| path in remaining;
        remaining := remaining - {path};
        if path !in oldFiles {
          batch, paths := batch + [FileChange(PathToUri(path), CREATED)], paths + [path];
        } else if newFiles[path] != oldFiles[path] {
          batch, paths := batch + [FileChange(PathToUri(path), CHANGED)], paths + [path];
        }
      }
      remaining := oldFiles.Keys;
      while remaining != {}
        invariant remaining <= oldFiles.Keys
        invariant ReportsSoFar(paths, batch, oldFiles, newFiles, newFiles.Keys + (oldFiles.Keys - remaining))
      {
        var path :| path in remaining;
        remaining := remaining - {path};
        if path !in newFiles {
          batch, paths := batch + [FileChange(PathToUri(path), DELETED)], paths + [path];
        }
      }
      changes := batch;
      if batch != [] && !isIndexing {
        return Some(batch), paths, changes;
      }
      sent := None;
    }
  }

  /** Each file is named at most once in a batch. */
  lemma UrisAreDistinct(paths: seq<string>, batch: seq<FileChange>, before: Snapshot, after: Snapshot, i: nat, j: nat)
    requires Reports(paths, batch, before, after) && i < j < |batch|
    requires forall p :: p in before || p in after ==> "/" <= p
    ensures batch[i].uri != batch[j].uri
  {
    if batch[i].uri == batch[j].uri {
      UriIsInjective(paths[i], paths[j]);
    }
  }

  // ----- what a listener knows after replaying batches

  function Replay(known: set<string>, batch: seq<FileChange>): set<string> {
    if batch == [] then known
    else
      var last := batch[|batch| - 1];
      var before := Replay(known, batch[..|batch| - 1]);
      if last.kind == CREATED then before + {last.uri}
      else if last.kind == DELETED then before - {last.uri}
      else before
  }

  ghost function Uris(s: Snapshot): set<string> {
    set p | p in s :: PathToUri(p)
  }

  predicate Absolute(s: Snapshot) {
    forall p :: p in s ==> "/" <= p
  }

  lemma {:induction false} ReplayEffect(known: set<string>, batch: seq<FileChange>, uri: string)
    requires forall i, j :: 0 <= i < j < |batch| ==> batch[i].uri != batch[j].uri
    ensures uri in Replay(known, batch)
       <==> FileChange(uri, CREATED) in batch || (uri in known && FileChange(uri, DELETED) !in batch)
  {
    if batch != [] {
      var init, last := batch[..|batch| - 1], batch[|batch| - 1];
      ReplayEffect(known, init, uri);
      assert forall c :: c in batch <==> c in init || c == last;
      if last.uri == uri {
        forall c | c in init
          ensures c.uri != uri
        {
          var i :| 0 <= i < |init| && init[i] == c;
          assert batch[i].uri != batch[|batch| - 1].uri;
        }
      }
    }
  }

  lemma UriOf(s: Snapshot, p: string)
    requires Absolute(s) && "/" <= p
    ensures PathToUri(p) in Uris(s) <==> p in s
  {
    if PathToUri(p) in Uris(s) {
      var q :| q in s && PathToUri(q) == PathToUri(p);
      UriIsInjective(p, q);
    }
  }

  lemma ReportedChange(paths: seq<string>, batch: seq<FileChange>, before: Snapshot, after: Snapshot, p: string,
                       kind: int)
    requires Reports(paths, batch, before, after) && Absolute(before) && Absolute(after) && "/" <= p
    ensures FileChange(PathToUri(p), kind) in batch <==> Verdict(before, after, p) == Some(kind)
  {
    if FileChange(PathToUri(p), kind) in batch {
      var i :| 0 <= i < |batch| && batch[i] == FileChange(PathToUri(p), kind);
      assert paths[i] in before || paths[i] in after;
      UriIsInjective(p, paths[i]);
    }
    if Verdict(before, after, p) == Some(kind) {
      var i :| 0 <= i < |paths| && paths[i] == p;
      assert batch[i] == FileChange(PathToUri(p), kind);
    }
  }

  /** What a listener that believed `known` believes after the batch. */
  lemma ReplayReported(known: set<string>, paths: seq<string>, batch: seq<FileChange>, before: Snapshot,
                       after: Snapshot, p: string)
    requires Reports(paths, batch, before, after) && Absolute(before) && Absolute(after) && "/" <= p
    ensures PathToUri(p) in Replay(known, batch)
       <==> if p in before <==> p in after then PathToUri(p) in known else p in after
  {
    forall i, j | 0 <= i < j < |batch|
      ensures batch[i].uri != batch[j].uri
    {
      UrisAreDistinct(paths, batch, before, after, i, j);
    }
    ReplayEffect(known, batch, PathToUri(p));
    ReportedChange(paths, batch, before, after, p, CREATED);
    ReportedChange(paths, batch, before, after, p, DELETED);
  }

  /** A run of polls: the snapshots taken, for each poll the report on its two snapshots, and whether it was sent. */
  ghost predicate Polls(snapshots: seq<Snapshot>, paths: seq<seq<string>>, batches: seq<seq<FileChange>>,
                        sent: seq<bool>) {
    && |snapshots| == |batches| + 1 && |paths| == |batches| == |sent|
    && (forall s :: s in snapshots ==> Absolute(s))
    && forall i :: 0 <= i < |batches| ==> Reports(paths[i], batches[i], snapshots[i], snapshots[i + 1])
  }

  /** What a listener believes after `n` polls, of which it has seen the batches that were sent. */
  function ReplaySent(known: set<string>, batches: seq<seq<FileChange>>, sent: seq<bool>, n: nat): set<string>
    requires n <= |batches| == |sent|
  {
    if n == 0 then known
    else
      var before := ReplaySent(known, batches, sent, n - 1);
      if sent[n - 1] then Replay(before, batches[n - 1]) else before
  }

  /** How often a file appeared or disappeared unseen since the listener last heard of it. */
  function WithheldMoves(snapshots: seq<Snapshot>, sent: seq<bool>, p: string, n: nat): nat
    requires n <= |sent| < |snapshots|
  {
    if n == 0 then 0
    else
      var before := WithheldMoves(snapshots, sent, p, n - 1);
      if p in snapshots[n - 1] <==> p in snapshots[n] then before
      else if sent[n - 1] then 0
      else before + 1
  }

  /**
   A poll whose batch is withheld, or could not be sent, is not caught up later. After any number of
   polls of any run the listener is right about a file exactly when the number of unseen moves since
   it last heard of the file is even.
   */
  lemma {:induction false} RightExactlyAfterEvenMoves(snapshots: seq<Snapshot>, paths: seq<seq<string>>,
                                                      batches: seq<seq<FileChange>>, sent: seq<bool>, n: nat,
                                                      p: string)
    requires Polls(snapshots, paths, batches, sent) && n <= |batches| && "/" <= p
    ensures (PathToUri(p) in ReplaySent(Uris(snapshots[0]), batches, sent, n) <==> p in snapshots[n])
       <==> WithheldMoves(snapshots, sent, p, n) % 2 == 0
  {
    if n == 0 {
      assert snapshots[0] in snapshots;
      UriOf(snapshots[0], p);
    } else {
      assert snapshots[n - 1] in snapshots && snapshots[n] in snapshots;
      RightExactlyAfterEvenMoves(snapshots, paths, batches, sent, n - 1, p);
      if sent[n - 1] {
        ReplayReported(ReplaySent(Uris(snapshots[0]), batches, sent, n - 1), paths[n - 1], batches[n - 1],
                       snapshots[n - 1], snapshots[n], p);
      }
    }
  }

  /** Replaying every batch of a run leaves a listener with exactly the files of each snapshot. */
  lemma ReplayFollows(snapshots: seq<Snapshot>, paths: seq<seq<string>>, batches: seq<seq<FileChange>>,
                      sent: seq<bool>, n: nat, p: string)
    requires Polls(snapshots, paths, batches, sent) && n <= |batches| && "/" <= p
    requires forall i :: 0 <= i < n ==> sent[i]
    ensures PathToUri(p) in ReplaySent(Uris(snapshots[0]), batches, sent, n) <==> p in snapshots[n]
  {
    RightExactlyAfterEvenMoves(snapshots, paths, batches, sent, n, p);
    NothingWithheld(snapshots, sent, p, n);
  }

  lemma {:induction false} NothingWithheld(snapshots: seq<Snapshot>, sent: seq<bool>, p: string, n: nat)
    requires n <= |sent| < |snapshots| && forall i :: 0 <= i < n ==> sent[i]
    ensures WithheldMoves(snapshots, sent, p, n) == 0
  {
    if n > 0 {
      NothingWithheld(snapshots, sent, p, n - 1);
    }
  }

  // ----- the versions of the files

  function VersionIn(s: Snapshot, p: string): Option<int> {
    if p in s then Some(s[p]) else None
  }

  /** A poll speaks of a file exactly when its version differs, an absent file having none. */
  lemma SpeaksOfChanges(before: Snapshot, after: Snapshot, p: string)
    ensures Verdict(before, after, p) == None <==> VersionIn(before, p) == VersionIn(after, p)
    ensures Verdict(before, after, p) == Some(CHANGED) <==> p in before && p in after && before[p] != after[p]
    ensures Verdict(before, after, p) == Some(CREATED) <==> p !in before && p in after
    ensures Verdict(before, after, p) == Some(DELETED) <==> p in before && p !in after
  {
  }

  /** What a listener has of a file if it reads it whenever it is told that the file was created or changed. */
  function VersionRead(snapshots: seq<Snapshot>, batches: seq<seq<FileChange>>, sent: seq<bool>, n: nat, p: string)
    : Option<int>
    requires n <= |batches| == |sent| < |snapshots|
  {
    if n == 0 then VersionIn(snapshots[0], p)
    else
      var before := VersionRead(snapshots, batches, sent, n - 1, p);
      if !sent[n - 1] then before
      else if FileChange(PathToUri(p), DELETED) in batches[n - 1] then None
      else if FileChange(PathToUri(p), CREATED) in batches[n - 1] || FileChange(PathToUri(p), CHANGED) in batches[n - 1]
      then VersionIn(snapshots[n], p)
      else before
  }

  /** The snapshot after the last poll that was sent and spoke of the file. */
  function LastTold(snapshots: seq<Snapshot>, sent: seq<bool>, n: nat, p: string): (m: nat)
    requires n <= |sent| < |snapshots|
    ensures m <= n
  {
    if n == 0 then 0
    else if sent[n - 1] && VersionIn(snapshots[n - 1], p) != VersionIn(snapshots[n], p) then n
    else LastTold(snapshots, sent, n - 1, p)
  }

  /** Over a run such a listener has the version of the poll that was last sent and had news of the file. */
  lemma {:induction false} VersionFollows(snapshots: seq<Snapshot>, paths: seq<seq<string>>,
                                          batches: seq<seq<FileChange>>, sent: seq<bool>, n: nat, p: string)
    requires Polls(snapshots, paths, batches, sent) && n <= |batches| && "/" <= p
    ensures VersionRead(snapshots, batches, sent, n, p) == VersionIn(snapshots[LastTold(snapshots, sent, n, p)], p)
    ensures (forall i :: 0 <= i < n ==> sent[i]) ==>
              VersionRead(snapshots, batches, sent, n, p) == VersionIn(snapshots[n], p)
  {
    if n > 0 {
      var before, after := snapshots[n - 1], snapshots[n];
      assert before in snapshots && after in snapshots;
      VersionFollows(snapshots, paths, batches, sent, n - 1, p);
      SpeaksOfChanges(before, after, p);
      ReportedChange(paths[n - 1], batches[n - 1], before, after, p, CREATED);
      ReportedChange(paths[n - 1], batches[n - 1], before, after, p, CHANGED);
      ReportedChange(paths[n - 1], batches[n - 1], before, after, p, DELETED);
    }
  }

  /** One withheld poll and one that was sent, for a listener that was right before. */
  lemma WithheldBatchIsLost(snapshots: seq<Snapshot>, paths: seq<seq<string>>, batches: seq<seq<FileChange>>, p: string)
    requires |batches| == 2 && Polls(snapshots, paths, batches, [false, true]) && "/" <= p
    ensures (PathToUri(p) in ReplaySent(Uris(snapshots[0]), batches, [false, true], 2) <==> p in snapshots[2])
       <==> ((p in snapshots[0] <==> p in snapshots[1]) || !(p in snapshots[1] <==> p in snapshots[2]))
  {
    RightExactlyAfterEvenMoves(snapshots, paths, batches, [false, true], 2, p);
    assert WithheldMoves(snapshots, [false, true], p, 1)
        == if p in snapshots[0] <==> p in snapshots[1] then 0 else 1;
  }

  /** A run that loses a file: it is created while the server indexes, and nothing happens afterwards. */
  lemma LosingRun()
    ensures var file, with := "/a.bsl", map["/a.bsl" := 1];
      && Polls([map[], with, with], [[file], []], [[FileChange(PathToUri(file), CREATED)], []], [false, true])
      && file in with
      && PathToUri(file) !in ReplaySent({}, [[FileChange(PathToUri(file), CREATED)], []], [false, true], 2)
  {
    var file, with: Snapshot := "/a.bsl", map["/a.bsl" := 1];
    var batches := [[FileChange(PathToUri(file), CREATED)], []];
    assert Reports([file], batches[0], map[], with);
    assert Reports([], batches[1], with, with);
    assert ReplaySent({}, batches, [false, true], 1) == {};
    assert Replay({}, []) == {};
  }

  // ----- fsnotify: coalescing the events of one window

  datatype Event = Event(name: string, create: bool, write: bool, remove: bool, rename: bool)

  function EventUri(e: Event): string {
    "file://" + e.name
  }

  /** The change an event dictates whatever came before; a write only adds one where none is noted. */
  function Dictates(e: Event): Option<int> {
    if e.create then Some(CREATED)
    else if e.write then None
    else if e.remove || e.rename then Some(DELETED)
    else None
  }

  /** The last create, remove or rename of the window for a file. */
  function LastDictated(window: seq<Event>, uri: string): Option<int> {
    if window == [] then None
    else
      var last := window[|window| - 1];
      if EventUri(last) == uri && Dictates(last).Some? then Dictates(last)
      else LastDictated(window[..|window| - 1], uri)
  }

  ghost predicate Written(window: seq<Event>, uri: string) {
    exists e :: e in window && EventUri(e) == uri && e.write
  }

  /** What the window amounts to for a file. */
  ghost function Outcome(window: seq<Event>, uri: string): Option<int> {
    if LastDictated(window, uri).Some? then LastDictated(window, uri)
    else if Written(window, uri) then Some(CHANGED)
    else None
  }

  class Coalescer {
    var pendingChanges: map<string, int>
    ghost var window: seq<Event>

    ghost predicate Valid()
      reads this
    {
      && (forall uri :: uri in pendingChanges <==> Outcome(window, uri).Some?)
      && (forall uri :: uri in pendingChanges ==> Outcome(window, uri) == Some(pendingChanges[uri]))
    }

    constructor ()
      ensures Valid() && window == []
    {
      pendingChanges, window := map[], [];
    }

    method OnEvent(e: Event)
      requires Valid()
      modifies this
      ensures Valid() && window == old(window) + [e]
    {
      var uri := EventUri(e);
      if e.create {
        pendingChanges := pendingChanges[uri := CREATED];
      } else if e.write {
        if uri !in pendingChanges {
          pendingChanges := pendingChanges[uri := CHANGED];
        }
      } else if e.remove || e.rename {
        pendingChanges := pendingChanges[uri := DELETED];
      }
      window := window + [e];
      forall u
        ensures Outcome(window, u)
             == if u != uri then Outcome(old(window), u)
                else if Dictates(e).Some? then Dictates(e)
                else if e.write && Outcome(old(window), u) == None then Some(CHANGED)
                else Outcome(old(window), u)
      {
        OutcomeAfter(old(window), e, u);
      }
    }

    /** The debounce timer fires: the batch of the window, empty when nothing is pending. */
    method OnTimer() returns (changes: seq<FileChange>)
      requires Valid()
      modifies this
      ensures Valid() && window == []
      ensures forall i, j :: 0 <= i < j < |changes| ==> changes[i].uri != changes[j].uri
      ensures forall uri, kind :: FileChange(uri, kind) in changes <==> Outcome(old(window), uri) == Some(kind)
    {
      changes := [];
      var remaining := pendingChanges.Keys;
      while remaining != {}
        invariant remaining <= pendingChanges.Keys && pendingChanges == old(pendingChanges) && window == old(window)
        invariant forall i, j :: 0 <= i < j < |changes| ==> changes[i].uri != changes[j].uri
        invariant forall c :: c in changes ==> c.uri in pendingChanges.Keys - remaining
        invariant forall uri, kind :: FileChange(uri, kind) in changes
                    <==> uri in pendingChanges.Keys - remaining && pendingChanges[uri] == kind
      {
        var uri :| uri in remaining;
        remaining := remaining - {uri};
        changes := changes + [FileChange(uri, pendingChanges[uri])];
      }
      pendingChanges := map[];
      window := [];
    }
  }

  /** One more event of a window, file by file. */
  lemma OutcomeAfter(window: seq<Event>, e: Event, uri: string)
    ensures Outcome(window + [e], uri)
         == if uri != EventUri(e) then Outcome(window, uri)
            else if Dictates(e).Some? then Dictates(e)
            else if e.write && Outcome(window, uri) == None then Some(CHANGED)
            else Outcome(window, uri)
  {
    assert (window + [e])[..|window|] == window;
    assert forall f :: f in window + [e] <==> f in window || f == e;
    assert Written(window + [e], uri) <==> Written(window, uri) || (EventUri(e) == uri && e.write);
  }

  // ----- the outcome of a window, told from the flags of its events

  predicate IsRemoval(e: Event) {
    !e.create && !e.write && (e.remove || e.rename)
  }

  /** Created in the end: a create with no removal behind it. */
  ghost predicate EndsCreated(window: seq<Event>, name: string) {
    exists i :: 0 <= i < |window| && window[i].name == name && window[i].create
                && forall j :: i < j < |window| && window[j].name == name ==> !IsRemoval(window[j])
  }

  /** Removed in the end: a removal with no create behind it. */
  ghost predicate EndsRemoved(window: seq<Event>, name: string) {
    exists i :: 0 <= i < |window| && window[i].name == name && IsRemoval(window[i])
                && forall j :: i < j < |window| && window[j].name == name ==> !window[j].create
  }

  ghost predicate OnlyWritten(window: seq<Event>, name: string) {
    && (exists e :: e in window && e.name == name && e.write)
    && forall e :: e in window && e.name == name ==> !e.create && !IsRemoval(e)
  }

  lemma CreatedNext(window: seq<Event>, e: Event, name: string)
    ensures EndsCreated(window + [e], name)
       <==> if e.name != name then EndsCreated(window, name)
            else e.create || (EndsCreated(window, name) && !IsRemoval(e))
  {
    var all := window + [e];
    if EndsCreated(window, name) && (e.name != name || !IsRemoval(e)) {
      var i :| 0 <= i < |window| && window[i].name == name && window[i].create
               && forall j :: i < j < |window| && window[j].name == name ==> !IsRemoval(window[j]);
      assert all[i] == window[i];
    }
    if e.name == name && e.create {
      assert all[|window|] == e;
    }
    if EndsCreated(all, name) && !(e.name == name && e.create) {
      var i :| 0 <= i < |all| && all[i].name == name && all[i].create
               && forall j :: i < j < |all| && all[j].name == name ==> !IsRemoval(all[j]);
      assert i < |window| && window[i] == all[i] && all[|window|] == e;
      assert forall j :: i < j < |window| ==> window[j] == all[j];
    }
  }

  lemma RemovedNext(window: seq<Event>, e: Event, name: string)
    ensures EndsRemoved(window + [e], name)
       <==> if e.name != name then EndsRemoved(window, name)
            else IsRemoval(e) || (EndsRemoved(window, name) && !e.create)
  {
    var all := window + [e];
    if EndsRemoved(window, name) && (e.name != name || !e.create) {
      var i :| 0 <= i < |window| && window[i].name == name && IsRemoval(window[i])
               && forall j :: i < j < |window| && window[j].name == name ==> !window[j].create;
      assert all[i] == window[i];
    }
    if e.name == name && IsRemoval(e) {
      assert all[|window|] == e;
    }
    if EndsRemoved(all, name) && !(e.name == name && IsRemoval(e)) {
      var i :| 0 <= i < |all| && all[i].name == name && IsRemoval(all[i])
               && forall j :: i < j < |all| && all[j].name == name ==> !all[j].create;
      assert i < |window| && window[i] == all[i] && all[|window|] == e;
      assert forall j :: i < j < |window| ==> window[j] == all[j];
    }
  }

  lemma SameName(a: string, b: string)
    ensures "file://" + a == "file://" + b <==> a == b
  {
    assert ("file://" + a)[7..] == a && ("file://" + b)[7..] == b;
  }

  /** The batch says created, deleted or changed exactly as the events of the window amount to. */
  lemma {:induction false} OutcomeFromFlags(window: seq<Event>, name: string)
    ensures Outcome(window, "file://" + name) == Some(CREATED) <==> EndsCreated(window, name)
    ensures Outcome(window, "file://" + name) == Some(DELETED) <==> EndsRemoved(window, name)
    ensures Outcome(window, "file://" + name) == Some(CHANGED) <==> OnlyWritten(window, name)
    ensures Outcome(window, "file://" + name) == None
       <==> forall e :: e in window && e.name == name ==> !e.create && !e.write && !e.remove && !e.rename
  {
    if window != [] {
      var init, e := window[..|window| - 1], window[|window| - 1];
      assert window == init + [e];
      assert forall f :: f in window <==> f in init || f == e;
      OutcomeFromFlags(init, name);
      CreatedNext(init, e, name);
      RemovedNext(init, e, name);
      OutcomeAfter(init, e, "file://" + name);
      SameName(e.name, name);
    }
  }
}
