/** SyncTracker: counters, byte totals, recent events and the close-and-replace notification channel. */
module ProgressTracker {
  import opened Sums

  const EVENT_CAP := 20

  const THROTTLE_MILLISECONDS := 250

  datatype Phase = Planning | Downloading | Complete | Failed | Cancelled

  datatype FileEvent = Completed(path: string, size: int) | FailedFile(path: string, error: string)

  datatype FileProgress = FileProgress(bytesDownloaded: int, totalBytes: int, done: bool, failed: bool)

  /** What the pool tells a tracker: bytes arriving for a destination, and how its download ended. */
  datatype Call = Arriving(path: string, bytes: int, total: int) | Succeeded(path: string, size: int) | Broke(path: string)

  /** What a tracker holds about the files, and how many downloads it has seen end. */
  datatype Board = Board(files: map<string, FileProgress>, ended: int)

  function FileOn(files: map<string, FileProgress>, path: string): FileProgress {
    if path in files then files[path] else FileProgress(0, 0, false, false)
  }

  /** What a call that is not throttled changes. */
  function Hear(b: Board, c: Call): Board {
    var f := FileOn(b.files, c.path);
    match c
    case Arriving(path, bytes, total) => b.(files := b.files[path := f.(bytesDownloaded := bytes, totalBytes := total)])
    case Succeeded(path, size) => Board(b.files[path := f.(done := true, bytesDownloaded := size)], b.ended + 1)
    case Broke(path) => Board(b.files[path := f.(failed := true)], b.ended + 1)
  }

  /** A snapshot as Snapshot returns it, without the clock-driven fields; the files under way are kept by path. */
  datatype SyncProgress = SyncProgress(phase: Phase, totalFiles: int, completedFiles: int, failedFiles: int,
                                       skippedFiles: int, totalBytes: int, bytesDownloaded: int, percent: real,
                                       currentFiles: map<string, FileProgress>, recentEvents: seq<FileEvent>,
                                       totalRetries: int, message: string)

  function Min(a: nat, b: nat): nat { if a < b then a else b }

  /** The newest events first, at most EVENT_CAP of them. */
  function Newest(history: seq<FileEvent>): (recent: seq<FileEvent>)
    ensures |recent| == Min(EVENT_CAP, |history|)
    ensures forall i | 0 <= i < |recent| :: recent[i] == history[|history| - 1 - i]
  {
    seq(Min(EVENT_CAP, |history|), i requires 0 <= i < |history| => history[|history| - 1 - i])
  }

  /** How many events completed a file, and how many failed one. */
  ghost function CompletedEvents(history: seq<FileEvent>): nat {
    if history == [] then 0
    else CompletedEvents(history[..|history| - 1]) + if history[|history| - 1].Completed? then 1 else 0
  }

  ghost function Bytes(f: FileProgress): real { f.bytesDownloaded as real }

  predicate UnderWay(f: FileProgress) { !f.done && !f.failed }

  /** The share of a file still under way. */
  function ActiveShare(f: FileProgress): real {
    if UnderWay(f) && f.totalBytes > 0 && f.bytesDownloaded > 0
    then f.bytesDownloaded as real / f.totalBytes as real
    else 0.0
  }

  /** The blended percentage of a snapshot. */
  ghost function Percent(totalFiles: int, skippedFiles: int, finished: int, files: map<string, FileProgress>): real {
    var work := totalFiles - skippedFiles;
    if work > 0 then
      var p := (finished as real + Total(files, ActiveShare)) / work as real * 100.0;
      if p > 100.0 then 100.0 else p
    else if totalFiles > 0 then 100.0
    else 0.0
  }

  /** One file's progress is this, and no other file's has changed. */
  ghost predicate OnlyFile(before: map<string, FileProgress>, after: map<string, FileProgress>, path: string,
                           f: FileProgress) {
    && path in after && after[path] == f
    && forall p | p != path :: (p in after <==> p in before) && (p in after && p in before ==> after[p] == before[p])
  }

  /** A file under way counts for the part of it that has arrived. */
  lemma ShareMeaning(f: FileProgress)
    requires UnderWay(f) && 0 < f.totalBytes && 0 <= f.bytesDownloaded <= f.totalBytes
    ensures ActiveShare(f) * f.totalBytes as real == f.bytesDownloaded as real
    ensures 0.0 <= ActiveShare(f) <= 1.0
  {
    var share := f.bytesDownloaded as real / f.totalBytes as real;
    assert share * f.totalBytes as real == f.bytesDownloaded as real;
    Unscaled(share, f.totalBytes as real, 1.0);
    Unscaled(0.0, f.totalBytes as real, share);
  }

  lemma Unscaled(a: real, whole: real, b: real)
    requires whole > 0.0
    ensures a * whole <= b * whole <==> a <= b
  {
    assert b * whole - a * whole == (b - a) * whole;
    if a > b { assert (a - b) * whole > 0.0; }
  }

  /**
   * The percentage never falls while files arrive: more bytes of a file under way raise it, unless it is full already,
   * and a download that ends, well or badly, does not lower it.
   */
  lemma NeverBackwards(totalFiles: int, skippedFiles: int, finished: int, files: map<string, FileProgress>,
                       path: string, bytes: int)
    requires path in files && UnderWay(files[path]) && totalFiles > skippedFiles
    requires 0 <= files[path].bytesDownloaded < bytes <= files[path].totalBytes
    ensures var more := files[path := files[path].(bytesDownloaded := bytes)];
            var now, later := Percent(totalFiles, skippedFiles, finished, files),
                              Percent(totalFiles, skippedFiles, finished, more);
            now < later || now == later == 100.0
    ensures var ended := files[path := files[path].(done := true, bytesDownloaded := bytes)];
            Percent(totalFiles, skippedFiles, finished, files) <= Percent(totalFiles, skippedFiles, finished + 1, ended)
    ensures var ended := files[path := files[path].(failed := true)];
            Percent(totalFiles, skippedFiles, finished, files) <= Percent(totalFiles, skippedFiles, finished + 1, ended)
  {
    hide *;
    var f := files[path];
    var g := f.(bytesDownloaded := bytes);
    SharesRise(f, bytes);
    TotalPut(files, ActiveShare, path, g);
    TotalPut(files, ActiveShare, path, g.(done := true));
    TotalPut(files, ActiveShare, path, f.(failed := true));
    PercentRises(totalFiles, skippedFiles, finished, files, finished, files[path := g]);
    PercentRises(totalFiles, skippedFiles, finished, files, finished + 1, files[path := g.(done := true)]);
    PercentRises(totalFiles, skippedFiles, finished, files, finished + 1, files[path := f.(failed := true)]);
  }

  lemma SharesRise(f: FileProgress, bytes: int)
    requires UnderWay(f) && 0 <= f.bytesDownloaded < bytes <= f.totalBytes
    ensures ActiveShare(f) < ActiveShare(f.(bytesDownloaded := bytes)) && ActiveShare(f) <= 1.0
    ensures ActiveShare(f.(done := true, bytesDownloaded := bytes)) == ActiveShare(f.(failed := true)) == 0.0
  {
    var g := f.(bytesDownloaded := bytes);
    ShareMeaning(f);
    ShareMeaning(g);
    Unscaled(ActiveShare(g), f.totalBytes as real, ActiveShare(f));
  }

  lemma {:induction false} PercentRises(totalFiles: int, skippedFiles: int, a: int, f: map<string, FileProgress>,
                                        b: int, g: map<string, FileProgress>)
    requires totalFiles > skippedFiles
    ensures a as real + Total(f, ActiveShare) < b as real + Total(g, ActiveShare) ==>
              || Percent(totalFiles, skippedFiles, a, f) < Percent(totalFiles, skippedFiles, b, g)
              || Percent(totalFiles, skippedFiles, a, f) == Percent(totalFiles, skippedFiles, b, g) == 100.0
    ensures a as real + Total(f, ActiveShare) <= b as real + Total(g, ActiveShare) ==>
              Percent(totalFiles, skippedFiles, a, f) <= Percent(totalFiles, skippedFiles, b, g)
  {
    hide Total;
    Raised(a as real + Total(f, ActiveShare), b as real + Total(g, ActiveShare), (totalFiles - skippedFiles) as real);
  }

  lemma Raised(part: real, more: real, whole: real)
    requires whole > 0.0
    ensures part < more ==> part / whole * 100.0 < more / whole * 100.0
    ensures part <= more ==> part / whole * 100.0 <= more / whole * 100.0
  {
    var p, q := part / whole, more / whole;
    assert p * whole == part && q * whole == more;
    Unscaled(p, whole, q);
    Unscaled(q, whole, p);
  }

  lemma PercentBounds(totalFiles: int, skippedFiles: int, finished: int, files: map<string, FileProgress>)
    requires finished >= 0
    ensures 0.0 <= Percent(totalFiles, skippedFiles, finished, files) <= 100.0
    ensures 0 < totalFiles - skippedFiles <= finished ==> Percent(totalFiles, skippedFiles, finished, files) == 100.0
  {
    TotalNonNegative(files, ActiveShare);
    var work := totalFiles - skippedFiles;
    if work > 0 {
      RatioBounds(finished as real + Total(files, ActiveShare), work as real);
    }
  }

  lemma RatioBounds(part: real, whole: real)
    requires part >= 0.0 && whole > 0.0
    ensures part / whole * 100.0 >= 0.0
    ensures part >= whole ==> part / whole * 100.0 >= 100.0
  {
    var q := part / whole;
    assert q * whole == part;
    assert q < 1.0 ==> q * whole < whole;
  }

  /** Recording one more event shifts the recent list by one and cuts it at the cap. */
  lemma NewestPush(history: seq<FileEvent>, e: FileEvent)
    ensures Newest(history + [e])
         == var recent := [e] + Newest(history); if |recent| > EVENT_CAP then recent[..EVENT_CAP] else recent
  {}

  /** A Go channel that is only ever closed; closing it a second time would panic. */
  class Channel {
    var closes: nat

    constructor ()
      ensures closes == 0
    {
      closes := 0;
    }

    method Close()
      requires closes == 0
      modifies this
      ensures closes == 1
    {
      closes := closes + 1;
    }
  }

  class SyncTracker {
    var phase: Phase
    var totalFiles: int
    var completedFiles: int
    var failedFiles: int
    var skippedFiles: int
    var totalBytes: int
    var bytesDownloaded: int
    var totalRetries: int
    var message: string
    var files: map<string, FileProgress>
    var recentEvents: seq<FileEvent>
    var notify: Channel
    var lastFileUpdate: map<string, int>

    /** Every event so far, oldest first, and every channel replaced so far. */
    ghost var history: seq<FileEvent>
    ghost var retired: set<Channel>

    /** Every replaced channel was closed exactly once, the current one is open. */
    ghost predicate Notifying()
      reads this, notify, retired
    {
      notify !in retired && notify.closes == 0 && forall c | c in retired :: c.closes == 1
    }

    /** The counters count events, the bytes are those of the file map, the recent events are the newest ones. */
    ghost predicate Counting()
      reads this
    {
      && bytesDownloaded as real == Total(files, Bytes)
      && recentEvents == Newest(history)
      && completedFiles == CompletedEvents(history) && completedFiles + failedFiles == |history|
    }

    ghost predicate Valid()
      reads this, notify, retired
    {
      Notifying() && Counting()
    }

    /** One update happened: the channel handed out before is closed and a new one is in its place. */
    twostate predicate Signalled()
      reads this
    {
      && retired == old(retired) + {old(notify)} && fresh(notify)
    }

    constructor ()
      ensures Valid() && retired == {} && history == [] && files == map[] && fresh(notify)
      ensures phase == Planning && totalFiles == skippedFiles == totalBytes == totalRetries == 0
    {
      phase, message := Planning, "";
      totalFiles, completedFiles, failedFiles, skippedFiles := 0, 0, 0, 0;
      totalBytes, bytesDownloaded, totalRetries := 0, 0, 0;
      files, recentEvents, lastFileUpdate := map[], [], map[];
      history, retired := [], {};
      notify := new Channel();
    }

    /** Wait: the channel the next update closes. */
    method Wait() returns (c: Channel)
      requires Valid()
      ensures c == notify && c.closes == 0
    {
      c := notify;
    }

    /** signal */
    method Signal()
      requires Notifying()
      modifies `notify, `retired, notify
      ensures Notifying() && Signalled()
    {
      notify.Close();
      retired := retired + {notify};
      notify := new Channel();
    }

    method SetPhase(phase: Phase)
      requires Valid()
      modifies `phase, `notify, `retired, notify
      ensures Valid() && Signalled() && this.phase == phase
    {
      this.phase := phase;
      Signal();
    }

    method SetTotals(totalFiles: int, totalBytes: int)
      requires Valid()
      modifies `totalFiles, `totalBytes, `notify, `retired, notify
      ensures Valid() && Signalled() && this.totalFiles == totalFiles && this.totalBytes == totalBytes
    {
      this.totalFiles, this.totalBytes := totalFiles, totalBytes;
      Signal();
    }

    method SetMessage(message: string)
      requires Valid()
      modifies `message, `notify, `retired, notify
      ensures Valid() && Signalled() && this.message == message
    {
      this.message := message;
      Signal();
    }

    method SetSkippedFiles(count: int)
      requires Valid()
      modifies `skippedFiles, `notify, `retired, notify
      ensures Valid() && Signalled() && skippedFiles == count
    {
      skippedFiles := count;
      Signal();
    }

    method FileSkipped()
      requires Valid()
      modifies `skippedFiles, `notify, `retired, notify
      ensures Valid() && Signalled() && skippedFiles == old(skippedFiles) + 1
    {
      skippedFiles := skippedFiles + 1;
      Signal();
    }

    method AddRetries(count: int)
      requires Valid()
      modifies `totalRetries, `notify, `retired, notify
      ensures Valid() && Signalled() && totalRetries == old(totalRetries) + count
    {
      totalRetries := totalRetries + count;
      Signal();
    }

    /** The loop over the file map, in whatever order the map gives its keys. */
    method RecalculateBytes() returns (total: int)
      ensures total as real == Total(files, Bytes)
    {
      total := 0;
      ghost var visited := {};
      var remaining := files.Keys;
      assert files - visited == files;
      while remaining != {}
        invariant remaining == files.Keys - visited
        invariant total as real + Total(files - visited, Bytes) == Total(files, Bytes)
        decreases |remaining|
      {
        var path :| path in remaining;
        TotalRemove(files - visited, Bytes, path);
        assert files - visited - {path} == files - (visited + {path});
        total := total + files[path].bytesDownloaded;
        remaining := remaining - {path};
        visited := visited + {path};
      }
      assert files - visited == map[];
    }

    function FileAt(path: string): FileProgress
      reads this
    {
      FileOn(files, path)
    }

    function Showing(): Board
      reads this
    {
      Board(files, completedFiles + failedFiles)
    }

    /** UpdateFileProgress: ignored within the throttle window of the same file, without a signal. */
    method UpdateFileProgress(path: string, bytesDownloaded: int, totalBytes: int, now: int)
      requires Valid()
      modifies `files, `bytesDownloaded, `lastFileUpdate, `notify, `retired, notify
      ensures Valid()
      ensures if path in old(lastFileUpdate) && now - old(lastFileUpdate[path]) < 250
              then unchanged(this)
              else && Signalled() && lastFileUpdate == old(lastFileUpdate)[path := now]
                   && Showing() == Hear(old(Showing()), Arriving(path, bytesDownloaded, totalBytes))
                   && OnlyFile(old(files), files, path, old(FileAt(path)).(bytesDownloaded := bytesDownloaded,
                                                                           totalBytes := totalBytes))
    {
      if path in lastFileUpdate && now - lastFileUpdate[path] < THROTTLE_MILLISECONDS {
        return;
      }
      lastFileUpdate := lastFileUpdate[path := now];
      files := files[path := FileAt(path).(bytesDownloaded := bytesDownloaded, totalBytes := totalBytes)];
      this.bytesDownloaded := RecalculateBytes();
      Signal();
    }

    /** addRecentEvent */
    method AddRecentEvent(e: FileEvent)
      requires recentEvents == Newest(history)
      modifies `recentEvents, `history
      ensures history == old(history) + [e] && recentEvents == Newest(history)
    {
      NewestPush(history, e);
      recentEvents := [e] + recentEvents;
      if |recentEvents| > EVENT_CAP {
        recentEvents := recentEvents[..EVENT_CAP];
      }
      history := history + [e];
    }

    /** FileCompleted: never throttled. */
    method FileCompleted(path: string, bytesDownloaded: int)
      requires Valid()
      modifies `files, `completedFiles, `bytesDownloaded, `recentEvents, `history, `notify, `retired, notify
      ensures Valid() && Signalled()
      ensures Showing() == Hear(old(Showing()), Succeeded(path, bytesDownloaded))
      ensures OnlyFile(old(files), files, path, old(FileAt(path)).(done := true, bytesDownloaded := bytesDownloaded))
      ensures completedFiles == old(completedFiles) + 1
      ensures history == old(history) + [Completed(path, bytesDownloaded)]
    {
      hide Total, Newest;
      files := files[path := FileAt(path).(done := true, bytesDownloaded := bytesDownloaded)];
      completedFiles := completedFiles + 1;
      this.bytesDownloaded := RecalculateBytes();
      AddRecentEvent(Completed(path, bytesDownloaded));
      assert history[..|history| - 1] == old(history);
      Signal();
    }

    /** FileFailed: the bytes a failed file had downloaded still count. */
    method FileFailed(path: string, error: string)
      requires Valid()
      modifies `files, `failedFiles, `recentEvents, `history, `notify, `retired, notify
      ensures Valid() && Signalled()
      ensures Showing() == Hear(old(Showing()), Broke(path))
      ensures OnlyFile(old(files), files, path, old(FileAt(path)).(failed := true))
      ensures failedFiles == old(failedFiles) + 1
      ensures history == old(history) + [FailedFile(path, error)]
    {
      TotalPut(files, Bytes, path, FileAt(path).(failed := true));
      files := files[path := FileAt(path).(failed := true)];
      failedFiles := failedFiles + 1;
      AddRecentEvent(FailedFile(path, error));
      assert history[..|history| - 1] == old(history);
      Signal();
    }

    /** Snapshot: the percentage does not depend on the order the map is visited in, and is one. */
    method Snapshot() returns (s: SyncProgress)
      requires Valid()
      ensures s.percent == Percent(totalFiles, skippedFiles, completedFiles + failedFiles, files)
      ensures 0.0 <= s.percent <= 100.0
      ensures 0 < totalFiles - skippedFiles <= completedFiles + failedFiles ==> s.percent == 100.0
      ensures forall path :: path in s.currentFiles <==> path in files && UnderWay(files[path])
      ensures forall path | path in s.currentFiles :: s.currentFiles[path] == files[path]
      ensures s.recentEvents == Newest(history) && |s.recentEvents| <= 20 && s.completedFiles + s.failedFiles == |history|
      ensures s.bytesDownloaded as real == Total(files, Bytes)
      ensures s.phase == phase && s.message == message && s.totalFiles == totalFiles && s.totalBytes == totalBytes
      ensures s.completedFiles == completedFiles && s.failedFiles == failedFiles && s.skippedFiles == skippedFiles
      ensures s.totalRetries == totalRetries
    {
      var percent := 0.0;
      var workItems := totalFiles - skippedFiles;
      PercentBounds(totalFiles, skippedFiles, completedFiles + failedFiles, files);
      if workItems > 0 {
        var doneWeight := (completedFiles + failedFiles) as real;
        var activeWeight := SumActive();
        percent := (doneWeight + activeWeight) / workItems as real * 100.0;
        if percent > 100.0 {
          percent := 100.0;
        }
      } else if totalFiles > 0 {
        percent := 100.0;
      }
      s := SyncProgress(phase, totalFiles, completedFiles, failedFiles, skippedFiles, totalBytes, bytesDownloaded,
                        percent, map path | path in files && UnderWay(files[path]) :: files[path], recentEvents,
                        totalRetries, message);
    }

    method SumActive() returns (total: real)
      ensures total == Total(files, ActiveShare)
    {
      total := 0.0;
      ghost var visited := {};
      var remaining := files.Keys;
      assert files - visited == files;
      while remaining != {}
        invariant remaining == files.Keys - visited
        invariant total + Total(files - visited, ActiveShare) == Total(files, ActiveShare)
        decreases |remaining|
      {
        var path :| path in remaining;
        TotalRemove(files - visited, ActiveShare, path);
        assert files - visited - {path} == files - (visited + {path});
        total := total + ActiveShare(files[path]);
        remaining := remaining - {path};
        visited := visited + {path};
      }
      assert files - visited == map[];
    }
  }
}
