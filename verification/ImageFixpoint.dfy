/** Planning against the files on disk: after a sync only the files it reported as failed are left to do. */
module ImageFixpoint {
  import opened Text
  import opened SafePaths
  import opened ImageMirror
  import opened ImagePaths
  import opened SyncEngine
  import opened DownloadClient
  import Pool = DownloadPool

  /** The files on disk by absolute path. */
  type Disk = map<string, Bytes>

  /** The provider's directory, and the hash files are compared by. */
  datatype Site = Site(cwd: string, root: string, hash: Bytes -> string)

  /** What planImage gives for one image: its artifacts, and the repository URL they are fetched from. */
  datatype PlannedImage = PlannedImage(artifacts: seq<Artifact>, base: string)

  datatype Planned = Planned(artifact: Artifact, url: string)

  function UrlOf(base: string, a: Artifact): string {
    base + (if a.isManifest then "/manifests/" else "/blobs/") + a.digest
  }

  function RelPath(a: Artifact): string { JoinSegments(a.path) }

  /** buildAction */
  function BuildAction(site: Site, disk: Disk, p: Planned): SyncAction {
    var a, relPath := p.artifact, RelPath(p.artifact);
    var localPath := SafeJoinUnder(site.cwd, site.root, relPath);
    if localPath.Failure? || localPath.value !in disk then SyncAction(Download, relPath, "", p.url, a.size, a.checksum)
    else
      var file := disk[localPath.value];
      if a.checksum != "" then
        if site.hash(file) == a.checksum then SyncAction(Skip, relPath, "", p.url, |file|, a.checksum)
        else SyncAction(Update, relPath, "", p.url, a.size, a.checksum)
      else if a.size > 0 && |file| != a.size then SyncAction(Update, relPath, "", p.url, a.size, a.checksum)
      else SyncAction(Skip, relPath, "", p.url, |file|, a.checksum)
  }

  /** The options a download of this checksum and size is run with. */
  function OptionsFor(checksum: string, size: int): Options<string> {
    Options(if checksum == "" then None else Some(checksum), size, 3)
  }

  /** A file the downloader would have accepted is in place. */
  predicate InPlace(site: Site, disk: Disk, relPath: string, checksum: string, size: int) {
    var localPath := SafeJoinUnder(site.cwd, site.root, relPath);
    && localPath.Success? && localPath.value in disk
    && Accepts(OptionsFor(checksum, size), site.hash, disk[localPath.value])
  }

  /** The planner skips an artifact exactly when the file in place would pass the downloader's own test. */
  lemma SkipMeansInPlace(site: Site, disk: Disk, p: Planned)
    ensures BuildAction(site, disk, p).kind.Skip?
       <==> InPlace(site, disk, RelPath(p.artifact), p.artifact.checksum, p.artifact.size)
    ensures !Deletes(BuildAction(site, disk, p)) && BuildAction(site, disk, p).path == RelPath(p.artifact)
    ensures BuildAction(site, disk, p).url == p.url && BuildAction(site, disk, p).checksum == p.artifact.checksum
    ensures BuildAction(site, disk, p).kind.Download? <==>
              var localPath := SafeJoinUnder(site.cwd, site.root, RelPath(p.artifact));
              localPath.Failure? || localPath.value !in disk
    ensures !BuildAction(site, disk, p).kind.Skip? ==> BuildAction(site, disk, p).size == p.artifact.size
    ensures BuildAction(site, disk, p).kind.Skip? ==>
              BuildAction(site, disk, p).size == |disk[SafeJoinUnder(site.cwd, site.root, RelPath(p.artifact)).value]|
  {
    hide SafeJoinUnder;
  }

  // ---------------------------------------------------------------- the merged plan

  function PlannedOf(image: PlannedImage): (r: seq<Planned>)
    ensures |r| == |image.artifacts|
    ensures forall i | 0 <= i < |r| :: r[i] == Planned(image.artifacts[i], UrlOf(image.base, image.artifacts[i]))
    ensures forall i | 0 <= i < |r| && image.artifacts[i].isManifest ::
              r[i].url == image.base + "/manifests/" + image.artifacts[i].digest
    ensures forall i | 0 <= i < |r| && !image.artifacts[i].isManifest ::
              r[i].url == image.base + "/blobs/" + image.artifacts[i].digest
  {
    seq(|image.artifacts|, i requires 0 <= i < |image.artifacts| =>
      Planned(image.artifacts[i], UrlOf(image.base, image.artifacts[i])))
  }

  /** Every planned artifact in order; an image that could not be planned contributes nothing. */
  function AllPlanned(images: seq<Option<PlannedImage>>): seq<Planned> {
    if images == [] then []
    else
      var last := images[|images| - 1];
      AllPlanned(images[..|images| - 1]) + match last case None => [] case Some(image) => PlannedOf(image)
  }

  /** The first artifact planned for a path. */
  function FirstFor(all: seq<Planned>, relPath: string): Option<Planned> {
    if all == [] then None
    else
      var earlier := FirstFor(all[..|all| - 1], relPath);
      if earlier.Some? then earlier
      else if RelPath(all[|all| - 1].artifact) == relPath then Some(all[|all| - 1])
      else None
  }

  /** One action per path, for the first artifact planned there. */
  ghost predicate IsMerged(site: Site, disk: Disk, all: seq<Planned>, actions: seq<SyncAction>) {
    && (forall i, j | 0 <= i < j < |actions| :: actions[i].path != actions[j].path)
    && (forall a | a in actions :: FirstFor(all, a.path).Some? && a == BuildAction(site, disk, FirstFor(all, a.path).value))
    && (forall relPath | FirstFor(all, relPath).Some? :: exists a :: a in actions && a.path == relPath)
  }

  /** The actions collected by path so far. */
  ghost predicate Collecting(site: Site, disk: Disk, all: seq<Planned>, byPath: map<string, SyncAction>) {
    && (forall relPath :: relPath in byPath <==> FirstFor(all, relPath).Some?)
    && (forall relPath | relPath in byPath ::
          byPath[relPath] == BuildAction(site, disk, FirstFor(all, relPath).value))
  }

  /** The artifact at a position is planned for this path, and none before it is. */
  predicate FirstAt(all: seq<Planned>, relPath: string, i: nat, p: Planned) {
    i < |all| && all[i] == p && RelPath(p.artifact) == relPath
    && forall j | 0 <= j < i :: RelPath(all[j].artifact) != relPath
  }

  lemma {:induction false} FirstForPath(all: seq<Planned>, relPath: string)
    ensures match FirstFor(all, relPath)
            case None => forall p | p in all :: RelPath(p.artifact) != relPath
            case Some(p) => p in all && RelPath(p.artifact) == relPath && exists i :: FirstAt(all, relPath, i, p)
  {
    hide RelPath;
    if all != [] {
      var n := |all| - 1;
      assert all == all[..n] + [all[n]];
      FirstForPath(all[..n], relPath);
      var earlier := FirstFor(all[..n], relPath);
      if earlier.Some? {
        var i :| FirstAt(all[..n], relPath, i, earlier.value);
        assert FirstAt(all, relPath, i, earlier.value);
      } else if RelPath(all[n].artifact) == relPath {
        forall j | 0 <= j < n ensures RelPath(all[j].artifact) != relPath { assert all[j] in all[..n]; }
        assert FirstAt(all, relPath, n, all[n]);
      }
    }
  }

  lemma CollectNext(site: Site, disk: Disk, all: seq<Planned>, byPath: map<string, SyncAction>, p: Planned)
    requires Collecting(site, disk, all, byPath)
    ensures Collecting(site, disk, all + [p],
                       if RelPath(p.artifact) in byPath then byPath
                       else byPath[RelPath(p.artifact) := BuildAction(site, disk, p)])
  {
    hide BuildAction, RelPath;
    assert (all + [p])[..|all|] == all;
  }

  /** Plan: the first action per path over every image; the paths come out in some order. */
  method Plan(site: Site, disk: Disk, images: seq<Option<PlannedImage>>) returns (actions: seq<SyncAction>)
    ensures IsMerged(site, disk, AllPlanned(images), actions)
  {
    hide BuildAction, RelPath, FirstFor, Collecting, AllPlanned;
    var byPath: map<string, SyncAction> := map[];
    NothingCollected(site, disk, images);
    for i := 0 to |images|
      invariant Collecting(site, disk, AllPlanned(images[..i]), byPath)
    {
      PlannedNext(images, i);
      assert AllPlanned(images[..i]) + [] == AllPlanned(images[..i]);
      if images[i].Some? {
        byPath := Collect(site, disk, AllPlanned(images[..i]), images[i].value, byPath);
      }
    }
    assert images[..|images|] == images;
    actions := ListActions(site, disk, AllPlanned(images), byPath);
  }

  lemma NothingCollected(site: Site, disk: Disk, images: seq<Option<PlannedImage>>)
    ensures Collecting(site, disk, AllPlanned(images[..0]), map[])
  {}

  lemma PlannedNext(images: seq<Option<PlannedImage>>, i: nat)
    requires i < |images|
    ensures AllPlanned(images[..i + 1])
         == AllPlanned(images[..i]) + match images[i] case None => [] case Some(image) => PlannedOf(image)
  {
    assert images[..i + 1][..i] == images[..i];
  }

  /** The loop over one image's actions. */
  method Collect(site: Site, disk: Disk, ghost before: seq<Planned>, image: PlannedImage,
                 byPath: map<string, SyncAction>)
    returns (byPath': map<string, SyncAction>)
    requires Collecting(site, disk, before, byPath)
    ensures Collecting(site, disk, before + PlannedOf(image), byPath')
  {
    hide BuildAction, RelPath, FirstFor, Collecting;
    byPath' := byPath;
    assert before + PlannedOf(image)[..0] == before;
    for i := 0 to |image.artifacts|
      invariant Collecting(site, disk, before + PlannedOf(image)[..i], byPath')
    {
      var p := Planned(image.artifacts[i], UrlOf(image.base, image.artifacts[i]));
      CollectNext(site, disk, before + PlannedOf(image)[..i], byPath', p);
      assert before + PlannedOf(image)[..i + 1] == before + PlannedOf(image)[..i] + [p];
      if RelPath(p.artifact) !in byPath' {
        byPath' := byPath'[RelPath(p.artifact) := BuildAction(site, disk, p)];
      }
    }
    assert PlannedOf(image)[..|image.artifacts|] == PlannedOf(image);
  }

  /** The plan's final list, one action per collected path. */
  method ListActions(site: Site, disk: Disk, ghost all: seq<Planned>, byPath: map<string, SyncAction>)
    returns (actions: seq<SyncAction>)
    requires Collecting(site, disk, all, byPath)
    ensures IsMerged(site, disk, all, actions)
  {
    actions := [];
    var remaining := byPath.Keys;
    while remaining != {}
      invariant remaining <= byPath.Keys
      invariant Listed(byPath, remaining, actions)
      decreases |remaining|
    {
      var path :| path in remaining;
      KeyIsPath(site, disk, all, byPath, path);
      hide IsMerged, Collecting;
      ListNext(byPath, remaining, actions, path);
      actions := actions + [byPath[path]];
      remaining := remaining - {path};
    }
    ListedIsMerged(site, disk, all, byPath, actions);
  }

  ghost predicate Listed(byPath: map<string, SyncAction>, remaining: set<string>, actions: seq<SyncAction>) {
    && (forall i, j | 0 <= i < j < |actions| :: actions[i].path != actions[j].path)
    && (forall a | a in actions :: a.path in byPath && a.path !in remaining && a == byPath[a.path])
    && (forall path | path in byPath && path !in remaining :: byPath[path] in actions && byPath[path].path == path)
  }

  lemma KeyIsPath(site: Site, disk: Disk, all: seq<Planned>, byPath: map<string, SyncAction>, path: string)
    requires Collecting(site, disk, all, byPath) && path in byPath
    ensures byPath[path].path == path
  {
    FirstForPath(all, path);
    SkipMeansInPlace(site, disk, FirstFor(all, path).value);
    hide BuildAction, RelPath, FirstFor;
  }

  lemma ListNext(byPath: map<string, SyncAction>, remaining: set<string>, actions: seq<SyncAction>, path: string)
    requires Listed(byPath, remaining, actions) && path in remaining && path in byPath && byPath[path].path == path
    ensures Listed(byPath, remaining - {path}, actions + [byPath[path]])
  {}

  lemma ListedIsMerged(site: Site, disk: Disk, all: seq<Planned>, byPath: map<string, SyncAction>,
                       actions: seq<SyncAction>)
    requires Collecting(site, disk, all, byPath) && Listed(byPath, {}, actions)
    ensures IsMerged(site, disk, all, actions)
  {
    hide BuildAction, FirstFor;
    forall relPath | FirstFor(all, relPath).Some? ensures exists a :: a in actions && a.path == relPath {
      assert byPath[relPath] in actions;
    }
  }

  // ---------------------------------------------------------------- destinations are distinct

  predicate CleanPaths(actions: seq<SyncAction>) {
    forall a | a in actions :: a.localPath == "" && CleanRelativePath(a.path) == Success(a.path)
  }

  predicate DistinctPaths(actions: seq<SyncAction>) {
    forall i, j | 0 <= i < j < |actions| :: actions[i].path != actions[j].path
  }

  lemma CleanDest(t: Target, a: SyncAction)
    requires IsAbs(t.cwd) && a.localPath == "" && CleanRelativePath(a.path) == Success(a.path)
    ensures DestPath(t, a) == SafeJoinUnder(t.cwd, t.root, a.path) && DestPath(t, a).Success?
  {
    SafeJoinMeaning(t.cwd, t.root, a.path);
    hide SafeJoinUnder, CleanRelativePath;
  }

  lemma DestsDiffer(t: Target, a: SyncAction, b: SyncAction)
    requires IsAbs(t.cwd) && a.localPath == "" && b.localPath == "" && a.path != b.path
    requires CleanRelativePath(a.path) == Success(a.path) && CleanRelativePath(b.path) == Success(b.path)
    ensures DestPath(t, a) != DestPath(t, b)
  {
    CleanDest(t, a);
    CleanDest(t, b);
    hide SafeJoinUnder, CleanRelativePath, DestPath;
    SafeJoinInjective(t.cwd, t.root, a.path, b.path);
  }

  lemma AllClean(t: Target, actions: seq<SyncAction>)
    requires IsAbs(t.cwd) && CleanPaths(actions)
    ensures AllResolve(t, actions)
  {
    hide SafeJoinUnder, CleanRelativePath, DestPath;
    forall a | a in actions ensures DestPath(t, a).Success? { CleanDest(t, a); }
  }

  /** Whose job a destination belongs to. */
  lemma {:induction false} JobsFromActions(t: Target, actions: seq<SyncAction>)
    ensures forall job | job in JobsOf(t, actions) ::
              exists i :: 0 <= i < |actions| && Fetches(actions[i]) && DestPath(t, actions[i]) == Success(job.destPath)
  {
    hide DestPath;
    if actions != [] {
      var n := |actions| - 1;
      JobsFromActions(t, actions[..n]);
      forall job | job in JobsOf(t, actions)
        ensures exists i :: 0 <= i < |actions| && Fetches(actions[i]) && DestPath(t, actions[i]) == Success(job.destPath)
      {
        if job in JobsOf(t, actions[..n]) {
          var i :| 0 <= i < n && Fetches(actions[..n][i]) && DestPath(t, actions[..n][i]) == Success(job.destPath);
          assert actions[i] == actions[..n][i];
        } else {
          assert Fetches(actions[n]) && DestPath(t, actions[n]) == Success(job.destPath);
        }
      }
    }
  }

  /** No earlier job goes where a later action goes. */
  lemma {:induction false} NotAmongJobs(t: Target, actions: seq<SyncAction>, a: SyncAction)
    requires IsAbs(t.cwd) && CleanPaths(actions) && a.localPath == "" && CleanRelativePath(a.path) == Success(a.path)
    requires forall b | b in actions :: Fetches(b) ==> b.path != a.path
    ensures forall job | job in JobsOf(t, actions) :: DestPath(t, a) != Success(job.destPath)
  {
    JobsFromActions(t, actions);
    hide DestPath, CleanRelativePath, JobsOf;
    forall job | job in JobsOf(t, actions) ensures DestPath(t, a) != Success(job.destPath) {
      var i :| 0 <= i < |actions| && Fetches(actions[i]) && DestPath(t, actions[i]) == Success(job.destPath);
      assert actions[i] in actions;
      DestsDiffer(t, a, actions[i]);
    }
  }

  /** Distinct clean paths give distinct destinations. */
  lemma {:induction false} PlanDestinations(t: Target, actions: seq<SyncAction>)
    requires IsAbs(t.cwd) && CleanPaths(actions) && DistinctPaths(actions)
    ensures DistinctDestinations(JobsOf(t, actions))
  {
    hide DestPath, CleanRelativePath;
    if actions != [] {
      var n := |actions| - 1;
      assert actions == actions[..n] + [actions[n]] && actions[n] in actions;
      PlanDestinations(t, actions[..n]);
      NotAmongJobs(t, actions[..n], actions[n]);
    }
  }

  // ---------------------------------------------------------------- after a sync

  /** Every downloaded report describes the file at its destination, and its job's options accept that file. */
  ghost predicate Delivered(site: Site, after: Disk, reports: seq<Pool.Report>) {
    forall r | r in reports && r.outcome.Downloaded? :: ReportDelivered(site, after, r)
  }

  ghost predicate ReportDelivered(site: Site, after: Disk, r: Pool.Report)
    requires r.outcome.Downloaded?
  {
    && r.job.destPath in after
    && |after[r.job.destPath]| == r.outcome.size && site.hash(after[r.job.destPath]) == r.outcome.sha256
    && Accepts(OptionsFor(r.job.expectedChecksum, r.job.expectedSize), site.hash, after[r.job.destPath])
  }

  /** Files no job writes to stay as they are, and no others appear. */
  ghost predicate OthersKept(before: Disk, after: Disk, jobs: seq<Pool.Job>) {
    forall path | NoJobGoes(jobs, path) ::
      (path in after <==> path in before) && (path in before ==> after[path] == before[path])
  }

  predicate NoJobGoes(jobs: seq<Pool.Job>, path: string) { forall job | job in jobs :: job.destPath != path }

  /** A sync of this plan, whatever became of its downloads. */
  ghost predicate Synced(site: Site, t: Target, before: Disk, after: Disk, actions: seq<SyncAction>,
                         reports: seq<Pool.Report>) {
    && t.cwd == site.cwd && t.root == site.root && ReportsOn(JobsOf(t, actions), reports)
    && Delivered(site, after, reports) && OthersKept(before, after, JobsOf(t, actions))
  }

  /** The report lists a failure for this path. */
  ghost predicate ReportedFailed(failed: seq<FailedFile>, relPath: string) {
    exists f :: f in failed && f.path == relPath
  }

  lemma {:induction false} FailureListed(t: Target, reports: seq<Pool.Report>, actions: seq<SyncAction>, i: nat)
    requires i < |actions| && Fetches(actions[i]) && !VerdictOn(t, reports, actions[i]).Fetched?
    ensures ReportedFailed(FailuresOf(t, reports, actions), actions[i].path)
  {
    hide VerdictOn;
    var n := |actions| - 1;
    if i < n {
      FailureListed(t, reports, actions[..n], i);
      var f :| f in FailuresOf(t, reports, actions[..n]) && f.path == actions[i].path;
      assert f in FailuresOf(t, reports, actions);
    } else {
      assert FailureOf(t, reports, actions[n]) in FailuresOf(t, reports, actions);
    }
  }

  /** A fetched action's file is in place. */
  lemma FetchedInPlace(site: Site, t: Target, before: Disk, after: Disk, actions: seq<SyncAction>,
                       reports: seq<Pool.Report>, i: nat)
    requires IsAbs(site.cwd) && CleanPaths(actions) && DistinctPaths(actions)
    requires Synced(site, t, before, after, actions, reports)
    requires i < |actions| && Fetches(actions[i]) && VerdictOn(t, reports, actions[i]).Fetched?
    ensures InPlace(site, after, actions[i].path, actions[i].checksum, actions[i].size)
  {
    AllClean(t, actions);
    PlanDestinations(t, actions);
    assert actions[i] in actions;
    CleanDest(t, actions[i]);
    OwnReport(t, actions, reports, i);
    JobAt(t, actions, i);
    hide SafeJoinUnder, CleanRelativePath, DestPath, ReportFor, JobsOf, JobNumber, FailuresOf, CleanPaths, DistinctPaths;
    hide DistinctDestinations, AllResolve, Accepts, OthersKept;
    var r := ReportFor(reports, DestPath(t, actions[i]).value).value;
    assert r.job == JobFor(DestPath(t, actions[i]).value, actions[i]);
    assert r.outcome.Downloaded?;
  }

  /** A skipped action's file is untouched. */
  lemma SkippedInPlace(site: Site, t: Target, before: Disk, after: Disk, actions: seq<SyncAction>,
                       reports: seq<Pool.Report>, i: nat, p: Planned)
    requires IsAbs(site.cwd) && CleanPaths(actions) && DistinctPaths(actions)
    requires Synced(site, t, before, after, actions, reports) && i < |actions| && Skips(actions[i])
    requires actions[i].path == RelPath(p.artifact)
    requires InPlace(site, before, RelPath(p.artifact), p.artifact.checksum, p.artifact.size)
    ensures InPlace(site, after, RelPath(p.artifact), p.artifact.checksum, p.artifact.size)
  {
    var a := actions[i];
    assert a in actions;
    CleanDest(t, a);
    forall b | b in actions ensures Fetches(b) ==> b.path != a.path {
      var j :| 0 <= j < |actions| && actions[j] == b;
      if j != i { assert actions[j].path != actions[i].path; }
    }
    NotAmongJobs(t, actions, a);
    hide SafeJoinUnder, CleanRelativePath, DestPath, JobsOf, FailuresOf, CleanPaths, Accepts, Delivered, RelPath;
    forall job | job in JobsOf(t, actions) ensures job.destPath != DestPath(t, a).value {
      assert DestPath(t, a) != Success(job.destPath);
    }
  }

  /** Every planned artifact's file is in place after the sync, unless its download is reported as failed. */
  lemma {:induction false} PlannedInPlace(site: Site, t: Target, before: Disk, after: Disk, all: seq<Planned>,
                                          actions: seq<SyncAction>, reports: seq<Pool.Report>, relPath: string)
    requires IsAbs(site.cwd) && CleanPaths(actions) && IsMerged(site, before, all, actions)
    requires Synced(site, t, before, after, actions, reports) && FirstFor(all, relPath).Some?
    requires !ReportedFailed(FailuresOf(t, reports, actions), relPath)
    ensures var p := FirstFor(all, relPath).value.artifact;
            RelPath(p) == relPath && InPlace(site, after, relPath, p.checksum, p.size)
  {
    var p := FirstFor(all, relPath).value;
    FirstForPath(all, relPath);
    var a :| a in actions && a.path == relPath;
    var i :| 0 <= i < |actions| && actions[i] == a;
    assert DistinctPaths(actions);
    SkipMeansInPlace(site, before, p);
    FetchKeepsTerms(site, before, p);
    hide BuildAction, InPlace, Synced, CleanPaths, RelPath, FirstFor, FailuresOf, VerdictOn, ReportedFailed;
    if a.kind.Skip? {
      SkippedInPlace(site, t, before, after, actions, reports, i, p);
    } else {
      if !VerdictOn(t, reports, a).Fetched? { FailureListed(t, reports, actions, i); }
      FetchedInPlace(site, t, before, after, actions, reports, i);
    }
  }

  lemma FetchKeepsTerms(site: Site, disk: Disk, p: Planned)
    ensures var a := BuildAction(site, disk, p);
            !a.kind.Skip? ==> Fetches(a) && a.checksum == p.artifact.checksum && a.size == p.artifact.size
  {
    hide SafeJoinUnder;
  }

  ghost predicate HasPath(actions: seq<SyncAction>, relPath: string) { exists a :: a in actions && a.path == relPath }

  /**
   * Sync converges: with the same images upstream, planning again after a sync plans exactly the same paths, and has
   * work only for those the report lists as failed. After a sync without failures everything is skipped.
   */
  lemma {:induction false} SyncReachesFixpoint(site: Site, t: Target, before: Disk, after: Disk, all: seq<Planned>,
                                               first: seq<SyncAction>, reports: seq<Pool.Report>,
                                               second: seq<SyncAction>)
    requires IsAbs(site.cwd) && CleanPaths(first)
    requires IsMerged(site, before, all, first) && Synced(site, t, before, after, first, reports)
    requires IsMerged(site, after, all, second)
    ensures forall b | b in second :: b.kind.Skip? || ReportedFailed(FailuresOf(t, reports, first), b.path)
    ensures forall relPath :: HasPath(first, relPath) <==> HasPath(second, relPath)
  {
    hide BuildAction, InPlace, Synced, CleanPaths, RelPath, FirstFor, ReportedFailed, FailuresOf;
    forall b | b in second ensures b.kind.Skip? || ReportedFailed(FailuresOf(t, reports, first), b.path) {
      var p := FirstFor(all, b.path).value;
      if !ReportedFailed(FailuresOf(t, reports, first), b.path) {
        PlannedInPlace(site, t, before, after, all, first, reports, b.path);
        SkipMeansInPlace(site, after, p);
      }
    }
    forall relPath ensures HasPath(first, relPath) <==> HasPath(second, relPath) {
      assert HasPath(first, relPath) <==> FirstFor(all, relPath).Some?;
      assert HasPath(second, relPath) <==> FirstFor(all, relPath).Some?;
    }
  }

  // ---------------------------------------------------------------- where artifacts come from

  /** The artifact is what planImage builds for this image directory. */
  ghost predicate PlacedIn(outputDir: string, imageID: string, a: Artifact) {
    Name(imageID) && NewArtifact(RelSegments(outputDir) + [imageID], a.isManifest, a.digest, a.size) == Success(a)
  }

  ghost predicate Placed(outputDir: string, a: Artifact) { exists imageID :: PlacedIn(outputDir, imageID, a) }

  ghost predicate AllPlaced(outputDir: string, all: seq<Planned>) {
    forall p | p in all :: Placed(outputDir, p.artifact)
  }

  lemma PlacedIsClean(outputDir: string, a: Artifact)
    requires CleanRelativePath(outputDir).Success? && Placed(outputDir, a)
    ensures Names(a.path) && a.path != [] && CleanRelativePath(RelPath(a)) == Success(RelPath(a))
  {
    var imageID :| PlacedIn(outputDir, imageID, a);
    CleanRelativePathMeaning(outputDir);
    var imageRoot := RelSegments(outputDir) + [imageID];
    ArtifactFields(imageRoot, a.isManifest, a.digest, a.size, a);
    var (algo, hex) := ParseDigest(a.digest).value;
    hide ParseDigest, ArtifactPath, NewArtifact, CleanRelativePath, Walk, Parts, KindName, FileName;
    ArtifactPathNames(imageRoot, a.isManifest, algo, hex);
    JoinedNames(a.path);
  }

  /** Every path of a merged plan is already clean. */
  lemma PlanIsClean(site: Site, disk: Disk, outputDir: string, all: seq<Planned>, actions: seq<SyncAction>)
    requires CleanRelativePath(outputDir).Success? && AllPlaced(outputDir, all) && IsMerged(site, disk, all, actions)
    ensures CleanPaths(actions)
  {
    hide CleanRelativePath, Placed, RelPath, FirstFor;
    forall a | a in actions ensures a.localPath == "" && CleanRelativePath(a.path) == Success(a.path) {
      FirstForPath(all, a.path);
      PlacedIsClean(outputDir, FirstFor(all, a.path).value.artifact);
    }
  }

  // ---------------------------------------------------------------- validation

  datatype ValidationReport = ValidationReport(total: nat, valid: nat, invalid: set<string>)

  /** A file is valid when its path names no sha256 digest, or the one it has. */
  predicate ContentValid(site: Site, disk: Disk, path: string)
    requires path in disk
  {
    match ValidatedHash(Parts(Rel(site.root, path)))
    case None => true
    case Some(expected) => site.hash(disk[path]) == expected
  }

  /** Whether walking a directory, or the one file that stands in its place, meets a file. */
  predicate Meets(cwd: string, dir: string, path: string) { AbsSegments(cwd, dir) <= AbsSegments(cwd, path) }

  /** Validate: hash every file below the output directory that has a sha256 path. */
  method Validate(site: Site, outputDir: string, disk: Disk) returns (r: Result<ValidationReport>)
    ensures r.Success? <==> SafeJoinUnder(site.cwd, site.root, outputDir).Success?
    ensures r.Success? ==>
              var dir := SafeJoinUnder(site.cwd, site.root, outputDir).value;
              && (forall path :: path in r.value.invalid <==>
                    path in disk && Meets(site.cwd, dir, path) && !ContentValid(site, disk, path))
              && r.value.total == |set path | path in disk && Meets(site.cwd, dir, path)|
              && r.value.valid + |r.value.invalid| == r.value.total
  {
    hide ContentValid, Meets, SafeJoinUnder;
    var validateRoot := SafeJoinUnder(site.cwd, site.root, outputDir);
    if validateRoot.Failure? {
      return Failure("invalid validate root");
    }
    var dir := validateRoot.value;
    var total, valid := 0, 0;
    var invalid: set<string> := {};
    var remaining := disk.Keys;
    ghost var walked: set<string> := {};
    while remaining != {}
      invariant remaining <= disk.Keys
      invariant walked == set path | path in disk && path !in remaining && Meets(site.cwd, dir, path)
      invariant total == |walked| && valid + |invalid| == total
      invariant forall path :: path in invalid <==> path in walked && !ContentValid(site, disk, path)
      decreases |remaining|
    {
      var path :| path in remaining;
      remaining := remaining - {path};
      if Meets(site.cwd, dir, path) {
        walked := walked + {path};
        total := total + 1;
        if ContentValid(site, disk, path) {
          valid := valid + 1;
        } else {
          invalid := invalid + {path};
        }
      }
    }
    assert walked == set path | path in disk && Meets(site.cwd, dir, path);
    r := Success(ValidationReport(total, valid, invalid));
  }

  lemma RelFromRoot(site: Site, relPath: string)
    requires IsAbs(site.cwd) && IsAbs(site.root) && CleanRelativePath(relPath) == Success(relPath)
    ensures SafeJoinUnder(site.cwd, site.root, relPath).Success?
    ensures Rel(site.root, SafeJoinUnder(site.cwd, site.root, relPath).value) == relPath
  {
    SafeJoinMeaning(site.cwd, site.root, relPath);
    RelOfSafeJoin(site.cwd, site.root, relPath);
    CleanMeaning(site.root);
    hide SafeJoinUnder, CleanRelativePath, Walk, Parts, Render, UpAndDown;
  }

  lemma PartsOfRelPath(a: Artifact)
    requires Names(a.path) && a.path != []
    ensures Parts(RelPath(a)) == a.path
  {
    hide Parts, JoinSegments;
    PartsOfJoin(a.path);
  }

  /**
   * When a planned file that is in place is valid: validation reads no hash from its path, or the one the file has. For
   * a file with a checksum that is a question about the path alone.
   */
  lemma InPlaceValidity(site: Site, disk: Disk, outputDir: string, imageID: string, a: Artifact)
    requires IsAbs(site.cwd) && IsAbs(site.root) && CleanRelativePath(outputDir).Success?
    requires PlacedIn(outputDir, imageID, a) && InPlace(site, disk, RelPath(a), a.checksum, a.size)
    ensures ParseDigest(a.digest).Success?
    ensures var path := SafeJoinUnder(site.cwd, site.root, RelPath(a));
            var reading := Reading(RelSegments(outputDir), imageID, a);
            && path.Success? && path.value in disk
            && (ContentValid(site, disk, path.value) <==> reading.None? || reading == Some(site.hash(disk[path.value])))
            && (a.checksum != "" ==>
                  (ContentValid(site, disk, path.value) <==> reading.None? || reading == Checksum(a)))
            && (ReadsOwn(RelSegments(outputDir), imageID, a) ==> ContentValid(site, disk, path.value))
  {
    assert Placed(outputDir, a);
    PlacedIsClean(outputDir, a);
    RelFromRoot(site, RelPath(a));
    PlacedReading(outputDir, imageID, a);
    PartsOfRelPath(a);
    hide PlacedIn, Placed, CleanRelativePath, SafeJoinUnder, Rel, ValidatedHash, RelSegments, Parts, RelPath, IsAbs, Names;
    hide Reading, ReadsOwn;
  }

  lemma PlacedReading(outputDir: string, imageID: string, a: Artifact)
    requires CleanRelativePath(outputDir).Success? && PlacedIn(outputDir, imageID, a)
    ensures ParseDigest(a.digest).Success?
    ensures ValidatedHash(a.path) == Reading(RelSegments(outputDir), imageID, a)
    ensures ReadsOwn(RelSegments(outputDir), imageID, a) <==> ValidatedHash(a.path) == Checksum(a)
  {
    CleanRelativePathMeaning(outputDir);
    hide NewArtifact, CleanRelativePath, ValidatedHash, RelSegments, Reading, ReadsOwn, ParseDigest;
    PathReading(RelSegments(outputDir), imageID, a.isManifest, a.digest, a.size, a);
    PathGivesChecksum(RelSegments(outputDir), imageID, a.isManifest, a.digest, a.size, a);
  }

  /** The names above every planned file leave its own digest to be read. */
  ghost predicate AllReadOwn(outputDir: string, all: seq<Planned>) {
    forall p | p in all :: PlacedReadsOwn(outputDir, p.artifact)
  }

  ghost predicate PlacedReadsOwn(outputDir: string, a: Artifact) {
    exists imageID :: PlacedIn(outputDir, imageID, a) && ReadsOwn(RelSegments(outputDir), imageID, a)
  }

  /** An output directory without a name blobs or manifests is safe for every plan. */
  lemma PlainIsSafe(outputDir: string, all: seq<Planned>)
    requires AllPlaced(outputDir, all) && PlainNames(RelSegments(outputDir))
    ensures AllReadOwn(outputDir, all)
  {
    hide PlainNames, ReadsOwn, NewArtifact, RelSegments;
    forall p | p in all ensures PlacedReadsOwn(outputDir, p.artifact) {
      assert Placed(outputDir, p.artifact);
      var imageID :| PlacedIn(outputDir, imageID, p.artifact);
      PlainReadsOwn(RelSegments(outputDir), imageID, p.artifact);
    }
  }

  lemma OwnIsPlaced(outputDir: string, all: seq<Planned>)
    requires AllReadOwn(outputDir, all)
    ensures AllPlaced(outputDir, all)
  {
    hide ReadsOwn, NewArtifact, RelSegments;
    forall p | p in all ensures Placed(outputDir, p.artifact) {
      assert PlacedReadsOwn(outputDir, p.artifact);
    }
  }

  /** The file is one the plan knows. */
  ghost predicate IsPlanned(site: Site, all: seq<Planned>, path: string, relPath: string) {
    FirstFor(all, relPath).Some? && SafeJoinUnder(site.cwd, site.root, relPath) == Success(path)
  }

  /**
   * After a sync the files validation finds invalid are files the plan does not know or files whose download is
   * reported as failed, as long as the names above every planned file leave its own digest to be read.
   */
  lemma {:induction false} SyncedIsValid(site: Site, t: Target, before: Disk, after: Disk, outputDir: string,
                                         all: seq<Planned>, actions: seq<SyncAction>, reports: seq<Pool.Report>,
                                         path: string, relPath: string)
    requires IsAbs(site.cwd) && IsAbs(site.root) && CleanRelativePath(outputDir).Success?
    requires AllReadOwn(outputDir, all)
    requires IsMerged(site, before, all, actions) && Synced(site, t, before, after, actions, reports)
    requires path in after && IsPlanned(site, all, path, relPath) && !ContentValid(site, after, path)
    ensures ReportedFailed(FailuresOf(t, reports, actions), relPath)
  {
    OwnIsPlaced(outputDir, all);
    PlanIsClean(site, before, outputDir, all, actions);
    FirstForPath(all, relPath);
    var p := FirstFor(all, relPath).value;
    assert PlacedReadsOwn(outputDir, p.artifact);
    hide BuildAction, InPlace, Synced, CleanPaths, RelPath, FirstFor, IsMerged, ContentValid, CleanRelativePath, PlacedIn;
    hide SafeJoinUnder, RelSegments, FailuresOf, ReportedFailed, ReadsOwn, Reading;
    if !ReportedFailed(FailuresOf(t, reports, actions), relPath) {
      var imageID :| PlacedIn(outputDir, imageID, p.artifact) && ReadsOwn(RelSegments(outputDir), imageID, p.artifact);
      PlannedInPlace(site, t, before, after, all, actions, reports, relPath);
      InPlaceValidity(site, after, outputDir, imageID, p.artifact);
    }
  }

  /**
   * A directory whose path spells a digest decides for everything below it: a sha256 digest makes exactly the files
   * with that very hash valid, and a digest of another algorithm makes every file valid, whatever it holds.
   */
  lemma {:induction false} DigestDirDecides(site: Site, disk: Disk, dir: seq<string>, rest: seq<string>, path: string)
    requires ExpectedDigest(dir).Some? && path in disk && Rel(site.root, path) == JoinSegments(dir + rest)
    requires Names(dir) && Names(rest)
    ensures ContentValid(site, disk, path)
       <==> !("sha256:" <= ExpectedDigest(dir).value) || site.hash(disk[path]) == ExpectedDigest(dir).value[7..]
  {
    EarlyHitWins(dir, rest);
    assert forall s | s in dir + rest :: '/' !in s;
    hide ExpectedDigest, Rel;
    assert dir != [] by { ShortIsSilent([]); }
    PartsOfJoin(dir + rest);
  }

  /** Such a directory: every file below blobs/sha256/<hex> is invalid unless it has that hash. */
  lemma {:induction false} OutputDirBreaksValidation(site: Site, disk: Disk, hex: string, dir: seq<string>,
                                                     rest: seq<string>, path: string)
    requires ValidHex(hex) && dir == ["blobs", "sha256", hex] && Names(rest)
    requires path in disk && Rel(site.root, path) == JoinSegments(dir + rest)
    ensures ContentValid(site, disk, path) <==> site.hash(disk[path]) == hex
  {
    hide *;
    OutputDirReadAsDigest(hex, dir);
    DigestDirDecides(site, disk, dir, rest, path);
  }
}
