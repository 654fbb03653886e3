/** From a plan to a push by way of the disk: what the downloads of a sync leave is the directory the loader reads. */
module MirrorDisk {
  import opened Text
  import opened ManifestGraph
  import opened ImageDocs
  import opened SafePaths
  import opened ImageMirror
  import opened ImagePush
  import opened Agreement
  import opened ImagePaths
  import opened ImageFixpoint
  import opened SyncEngine
  import opened DownloadClient
  import opened SyncRun
  import Pool = DownloadPool

  // ---------------------------------------------------------------- an image directory on disk

  /** The file at some names below the provider's directory. */
  function FileAt(site: Site, disk: Disk, names: seq<string>): Option<Bytes> {
    match SafeJoinUnder(site.cwd, site.root, JoinSegments(names))
    case Failure(_) => None
    case Success(path) => At(disk, path)
  }

  function Below(imageRoot: seq<string>, kind: string, algo: string, name: string): seq<string> {
    imageRoot + [kind, algo, name]
  }

  predicate EndsJson(name: string) { |name| >= 5 && name[|name| - 5..] == ".json" }

  /** The documents on disk: what parsing makes of bytes. */
  type Reader = Bytes -> Body

  /** manifests/<algo>/<name>.json as the loader lists and reads them. */
  ghost predicate ListsManifests(site: Site, disk: Disk, imageRoot: seq<string>, reader: Reader,
                                 files: seq<ManifestFile>) {
    && (forall f | f in files ::
          && Name(f.algo) && Name(f.name) && EndsJson(f.name)
          && var file := FileAt(site, disk, Below(imageRoot, KindName(true), f.algo, f.name));
             file.Some? && f.body == reader(file.value))
    && (forall algo, name | Name(algo) && Name(name) && EndsJson(name)
                            && FileAt(site, disk, Below(imageRoot, KindName(true), algo, name)).Some? ::
          exists f :: f in files && f.algo == algo && f.name == name)
  }

  /** blobs/<algo>/<hash> as the loader lists them. */
  ghost predicate ListsBlobs(site: Site, disk: Disk, imageRoot: seq<string>, files: seq<BlobFile>) {
    forall algo, hash :: BlobFile(algo, hash) in files <==>
      Name(algo) && Name(hash) && FileAt(site, disk, Below(imageRoot, KindName(false), algo, hash)).Some?
  }

  ghost predicate Lists(site: Site, disk: Disk, imageRoot: seq<string>, reader: Reader, dir: ImageDir) {
    ListsManifests(site, disk, imageRoot, reader, dir.manifests) && ListsBlobs(site, disk, imageRoot, dir.blobs)
  }

  lemma {:induction false} NamesJoin(site: Site, names: seq<string>)
    requires IsAbs(site.cwd) && Names(names) && names != []
    ensures SafeJoinUnder(site.cwd, site.root, JoinSegments(names)).Success?
    ensures CleanRelativePath(JoinSegments(names)) == Success(JoinSegments(names))
  {
    JoinedNames(names);
    SafeJoinMeaning(site.cwd, site.root, JoinSegments(names));
    hide SafeJoinUnder, CleanRelativePath, JoinSegments, RelSegments;
  }

  /** Names that go to the same place are the same names. */
  lemma {:induction false} SamePlace(site: Site, a: seq<string>, b: seq<string>)
    requires IsAbs(site.cwd) && Names(a) && Names(b) && a != [] && b != []
    requires SafeJoinUnder(site.cwd, site.root, JoinSegments(a)) == SafeJoinUnder(site.cwd, site.root, JoinSegments(b))
    ensures a == b
  {
    NamesJoin(site, a);
    NamesJoin(site, b);
    JoinedNames(a);
    JoinedNames(b);
    hide SafeJoinUnder, CleanRelativePath, JoinSegments, RelSegments;
    SafeJoinInjective(site.cwd, site.root, JoinSegments(a), JoinSegments(b));
  }

  // ---------------------------------------------------------------- a first mirror of one image

  /**
   * A sync of a merged plan in which one image takes part: its plan's artifacts are among those merged, nothing else
   * merged has its directory, and nothing was in that directory before.
   */
  ghost predicate TakesPart(site: Site, before: Disk, outputDir: string, imageID: string, all: seq<Planned>,
                            plan: seq<Artifact>) {
    && CleanRelativePath(outputDir).Success? && Name(imageID) && AllPlaced(outputDir, all)
    && (forall a | a in plan :: exists p :: p in all && p.artifact == a)
    && (forall p | p in all && PlacedIn(outputDir, imageID, p.artifact) :: p.artifact in plan)
    && (forall names | Names(names) && RelSegments(outputDir) + [imageID] <= names :: FileAt(site, before, names).None?)
  }

  /** The servers: every job's download meets an honest server for what is at its URL. */
  ghost predicate HonestWorld(world: World, jobs: seq<Pool.Job>, served: string -> Bytes) {
    forall k: nat | k < |jobs| :: Honest(served(jobs[k].url), world.weather(k).net)
  }

  /** What is at a manifest's URL reads as the registry's answer. */
  ghost predicate ServesAnswers(reg: Registry, all: seq<Planned>, plan: seq<Artifact>, served: string -> Bytes,
                                reader: Reader) {
    forall p | p in all && p.artifact in plan && p.artifact.isManifest ::
      p.artifact.digest in reg && reader(served(p.url)) == reg[p.artifact.digest].body
  }

  /** The names of an artifact below its image's directory. */
  lemma PlacedNames(outputDir: string, imageID: string, a: Artifact)
    requires CleanRelativePath(outputDir).Success? && PlacedIn(outputDir, imageID, a)
    ensures Names(a.path) && |a.path| > |RelSegments(outputDir)| + 1
    ensures RelSegments(outputDir) + [imageID] <= a.path
  {
    CleanRelativePathMeaning(outputDir);
    var imageRoot := RelSegments(outputDir) + [imageID];
    ArtifactFields(imageRoot, a.isManifest, a.digest, a.size, a);
    var (algo, hex) := ParseDigest(a.digest).value;
    hide ParseDigest, ArtifactPath, NewArtifact, CleanRelativePath, Walk, Parts, KindName, FileName, RelSegments;
    ArtifactPathNames(imageRoot, a.isManifest, algo, hex);
  }

  /** Whoever plans a path in an image's directory is of that image. */
  lemma SameImage(outputDir: string, imageID: string, a: Artifact)
    requires CleanRelativePath(outputDir).Success? && Placed(outputDir, a)
    requires RelSegments(outputDir) + [imageID] <= a.path
    ensures PlacedIn(outputDir, imageID, a)
  {
    hide PlacedIn, CleanRelativePath, RelSegments;
    var other :| PlacedIn(outputDir, other, a);
    PlacedNames(outputDir, other, a);
    var n := |RelSegments(outputDir)|;
    assert a.path[n] == (RelSegments(outputDir) + [imageID])[n] == imageID;
    assert a.path[n] == (RelSegments(outputDir) + [other])[n] == other;
  }

  /** The names of a storable artifact tell its digest and what it is. */
  lemma StorableNamesOf(imageRoot: seq<string>, a: Artifact) returns (algo: string, hex: string)
    requires Storable(a.digest) && NewArtifact(imageRoot, a.isManifest, a.digest, a.size) == Success(a)
    ensures a.path == Below(imageRoot, KindName(a.isManifest), algo, FileName(a.isManifest, hex))
    ensures a.digest == algo + ":" + hex && Name(algo) && Name(FileName(a.isManifest, hex))
    ensures a.isManifest ==> EndsJson(FileName(true, hex))
  {
    algo, hex := StorablePath(imageRoot, a.digest, a.size);
    var parts := ParseDigest(a.digest).value;
    CanonicalReadersAgree(a.digest);
    assert (algo, hex) == parts;
    hide ParseDigest, NewArtifact, Canonical, SplitDigest;
    AlgoIsName(algo);
    FileNameIsName(a.isManifest, hex);
    JsonEnds(hex);
  }

  lemma JsonEnds(hex: string)
    ensures EndsJson(FileName(true, hex))
  {
    var name := hex + ".json";
    assert name[|name| - 5..] == ".json";
  }

  /** Two storable artifacts at one path are the same kind of artifact with the same digest. */
  lemma SamePathSameDigest(imageRoot: seq<string>, a: Artifact, b: Artifact)
    requires Storable(a.digest) && NewArtifact(imageRoot, a.isManifest, a.digest, a.size) == Success(a)
    requires Storable(b.digest) && NewArtifact(imageRoot, b.isManifest, b.digest, b.size) == Success(b)
    requires a.path == b.path
    ensures a.isManifest == b.isManifest && a.digest == b.digest
  {
    hide *;
    var algo, hex := StorableNamesOf(imageRoot, a);
    var algo', hex' := StorableNamesOf(imageRoot, b);
    SameBelow(imageRoot, KindName(a.isManifest), algo, FileName(a.isManifest, hex),
              KindName(b.isManifest), algo', FileName(b.isManifest, hex'));
    SameFile(a.isManifest, hex, b.isManifest, hex');
  }

  lemma SameBelow(imageRoot: seq<string>, kind: string, algo: string, name: string, kind': string, algo': string,
                  name': string)
    requires Below(imageRoot, kind, algo, name) == Below(imageRoot, kind', algo', name')
    ensures kind == kind' && algo == algo' && name == name'
  {
    var names, n := Below(imageRoot, kind, algo, name), |imageRoot|;
    assert names[n] == kind && names[n + 1] == algo && names[n + 2] == name;
  }

  lemma SameFile(isManifest: bool, hex: string, isManifest': bool, hex': string)
    requires KindName(isManifest) == KindName(isManifest') && FileName(isManifest, hex) == FileName(isManifest', hex')
    ensures isManifest == isManifest' && hex == hex'
  {
    KindTells(isManifest, isManifest');
    hide KindName;
    if isManifest {
      assert (hex + ".json")[..|hex|] == hex && (hex' + ".json")[..|hex'|] == hex';
    }
  }

  lemma KindTells(isManifest: bool, isManifest': bool)
    requires KindName(isManifest) == KindName(isManifest')
    ensures isManifest == isManifest'
  {
    assert |"manifests"| != |"blobs"|;
  }

  // ---------------------------------------------------------------- what the sync leaves at an artifact's path

  /** What became of a downloaded job whose result is a success. */
  lemma {:induction false} FetchLeaves(world: World, jobs: seq<Pool.Job>, before: Disk, k: nat, content: Bytes)
    requires DistinctDestinations(jobs) && k < |jobs| && Honest(content, world.weather(k).net)
    requires At(before, jobs[k].destPath).None? && ReportAt(world, jobs, before, k).outcome.Downloaded?
    ensures At(DiskAfter(world, jobs, before), jobs[k].destPath) == Some(content)
  {
    var job := jobs[k];
    OwnFile(world, jobs, before, k);
    DownloadKeepsPart(OptionsFor(job.expectedChecksum, job.expectedSize), world.hash, content, world.weather(k).net,
                      world.weather(k).ctx, 1, None, false);
    hide Loop, DiskAfter, Honest, DistinctDestinations;
  }

  lemma {:induction false} ReportsOnJobs(world: World, jobs: seq<Pool.Job>, before: Disk)
    requires DistinctDestinations(jobs)
    ensures ReportsOn(jobs, ReportsAfter(world, jobs, before))
  {
    ReportsMeaning(world, jobs, before);
    hide ReportsAfter, DistinctDestinations, Fetch;
  }

  lemma {:induction false} FetchedIsDownloaded(t: Target, reports: seq<Pool.Report>, a: SyncAction)
    requires VerdictOn(t, reports, a).Fetched?
    ensures DestPath(t, a).Success? && ReportFor(reports, DestPath(t, a).value).Some?
    ensures ReportFor(reports, DestPath(t, a).value).value.outcome.Downloaded?
  {
    hide DestPath, ReportFor;
  }

  lemma {:induction false} JobAtDest(t: Target, actions: seq<SyncAction>, i: nat)
    requires i < |actions| && JobPlaced(t, actions, i)
    ensures JobsOf(t, actions)[JobNumber(actions, i)].destPath == DestPath(t, actions[i]).value
  {
    hide DestPath, JobsOf, JobNumber;
  }

  /** A download that is not reported as failed has its own success among the reports. */
  lemma {:induction false} OwnSuccess(t: Target, world: World, before: Disk, actions: seq<SyncAction>, i: nat)
    requires AllResolve(t, actions) && DistinctDestinations(JobsOf(t, actions))
    requires i < |actions| && Fetches(actions[i])
    requires !ReportedFailed(FailuresOf(t, ReportsAfter(world, JobsOf(t, actions), before), actions), actions[i].path)
    ensures var jobs, k := JobsOf(t, actions), JobNumber(actions, i);
            && k < |jobs| && DestPath(t, actions[i]).Success?
            && jobs[k].destPath == DestPath(t, actions[i]).value && jobs[k].url == actions[i].url
            && ReportAt(world, jobs, before, k).outcome.Downloaded?
  {
    hide *;
    var jobs := JobsOf(t, actions);
    var reports := ReportsAfter(world, jobs, before);
    JobAt(t, actions, i);
    PlacedJob(t, actions, i);
    JobAtDest(t, actions, i);
    if !VerdictOn(t, reports, actions[i]).Fetched? { FailureListed(t, reports, actions, i); }
    ReportsMeaning(world, jobs, before);
    ReportsOnJobs(world, jobs, before);
    OwnReport(t, actions, reports, i);
    FetchedIsDownloaded(t, reports, actions[i]);
  }

  /** A file that was not there is downloaded, and then holds what the server has. */
  lemma {:induction false} FetchedContent(site: Site, t: Target, world: World, before: Disk, actions: seq<SyncAction>,
                                          i: nat, served: string -> Bytes)
    requires IsAbs(site.cwd) && t.cwd == site.cwd && t.root == site.root
    requires CleanPaths(actions) && DistinctPaths(actions) && i < |actions| && Fetches(actions[i])
    requires HonestWorld(world, JobsOf(t, actions), served)
    requires !ReportedFailed(FailuresOf(t, ReportsAfter(world, JobsOf(t, actions), before), actions), actions[i].path)
    requires DestPath(t, actions[i]).Success? && At(before, DestPath(t, actions[i]).value).None?
    ensures At(DiskAfter(world, JobsOf(t, actions), before), DestPath(t, actions[i]).value)
         == Some(served(actions[i].url))
  {
    AllClean(t, actions);
    PlanDestinations(t, actions);
    OwnSuccess(t, world, before, actions, i);
    var jobs, k := JobsOf(t, actions), JobNumber(actions, i);
    assert Honest(served(jobs[k].url), world.weather(k).net);
    hide *;
    FetchLeaves(world, jobs, before, k, served(jobs[k].url));
  }

  /** No path below these names is reported as failed. */
  ghost predicate NothingFailed(failed: seq<FailedFile>, plan: seq<Artifact>) {
    forall a | a in plan :: !ReportedFailed(failed, RelPath(a))
  }

  /** The artifact planned at an image's path, and the action for it. */
  lemma ActionFor(site: Site, before: Disk, outputDir: string, imageID: string, all: seq<Planned>, plan: seq<Artifact>,
                  actions: seq<SyncAction>, relPath: string) returns (q: Planned, i: nat)
    requires IsAbs(site.cwd) && TakesPart(site, before, outputDir, imageID, all, plan)
    requires IsMerged(site, before, all, actions) && FirstFor(all, relPath).Some?
    requires PlacedIn(outputDir, imageID, FirstFor(all, relPath).value.artifact)
    ensures q == FirstFor(all, relPath).value && q in all && q.artifact in plan && RelPath(q.artifact) == relPath
    ensures i < |actions| && actions[i].path == relPath && Fetches(actions[i]) && actions[i].url == q.url
    ensures FileAt(site, before, q.artifact.path).None?
  {
    q := FirstFor(all, relPath).value;
    FirstForPath(all, relPath);
    PlacedNames(outputDir, imageID, q.artifact);
    var a :| a in actions && a.path == relPath;
    i :| 0 <= i < |actions| && actions[i] == a;
    SkipMeansInPlace(site, before, q);
    FetchKeepsTerms(site, before, q);
    hide BuildAction, FirstFor, PlacedIn, SafeJoinUnder, CleanRelativePath, RelSegments, Accepts;
    assert FileAt(site, before, q.artifact.path).None?;
    assert !InPlace(site, before, RelPath(q.artifact), q.artifact.checksum, q.artifact.size);
  }

  /** What is at the path of an artifact of the image after the sync. */
  lemma ArtifactStored(site: Site, t: Target, world: World, before: Disk, outputDir: string, imageID: string,
                       all: seq<Planned>, plan: seq<Artifact>, actions: seq<SyncAction>, served: string -> Bytes,
                       relPath: string) returns (q: Planned)
    requires IsAbs(site.cwd) && t.cwd == site.cwd && t.root == site.root
    requires TakesPart(site, before, outputDir, imageID, all, plan) && IsMerged(site, before, all, actions)
    requires FirstFor(all, relPath).Some? && PlacedIn(outputDir, imageID, FirstFor(all, relPath).value.artifact)
    requires HonestWorld(world, JobsOf(t, actions), served)
    requires NothingFailed(FailuresOf(t, ReportsAfter(world, JobsOf(t, actions), before), actions), plan)
    ensures q in all && q.artifact in plan && RelPath(q.artifact) == relPath
    ensures FileAt(site, DiskAfter(world, JobsOf(t, actions), before), q.artifact.path) == Some(served(q.url))
  {
    var i: nat;
    q, i := ActionFor(site, before, outputDir, imageID, all, plan, actions, relPath);
    PlanIsClean(site, before, outputDir, all, actions);
    MergedDistinct(site, before, all, actions);
    assert actions[i] in actions;
    CleanDest(t, actions[i]);
    hide IsMerged, TakesPart, DestPath, SafeJoinUnder, CleanRelativePath, CleanPaths, DistinctPaths, FirstFor, PlacedIn;
    hide HonestWorld, DiskAfter, ReportsAfter, FailuresOf, ReportedFailed, JobsOf;
    FetchedContent(site, t, world, before, actions, i, served);
  }

  // ---------------------------------------------------------------- the directory a sync leaves

  /** A first mirror of one image, whose downloads meet honest servers and are not reported as failed. */
  ghost predicate Mirrored(site: Site, t: Target, world: World, before: Disk, outputDir: string, imageID: string,
                           all: seq<Planned>, plan: seq<Artifact>, actions: seq<SyncAction>, served: string -> Bytes) {
    && IsAbs(site.cwd) && t.cwd == site.cwd && t.root == site.root
    && TakesPart(site, before, outputDir, imageID, all, plan) && IsMerged(site, before, all, actions)
    && HonestWorld(world, JobsOf(t, actions), served)
    && NothingFailed(FailuresOf(t, ReportsAfter(world, JobsOf(t, actions), before), actions), plan)
  }

  lemma {:induction false} FirstForSome(all: seq<Planned>, p: Planned)
    requires p in all
    ensures FirstFor(all, RelPath(p.artifact)).Some?
  {
    hide RelPath;
    var n := |all| - 1;
    if p in all[..n] {
      FirstForSome(all[..n], p);
    }
  }

  lemma SameNames(a: Artifact, b: Artifact)
    requires Names(a.path) && Names(b.path) && a.path != [] && b.path != [] && RelPath(a) == RelPath(b)
    ensures a.path == b.path
  {
    PartsOfRelPath(a);
    PartsOfRelPath(b);
  }

  /** Whoever is planned first for the path of an artifact of the image is of the image, with the same names. */
  lemma {:induction false} FirstAtPath(site: Site, before: Disk, outputDir: string, imageID: string, all: seq<Planned>,
                                       plan: seq<Artifact>, a: Artifact)
    requires TakesPart(site, before, outputDir, imageID, all, plan) && a in plan && PlacedIn(outputDir, imageID, a)
    ensures FirstFor(all, RelPath(a)).Some?
    ensures var q := FirstFor(all, RelPath(a)).value.artifact;
            q.path == a.path && q in plan && PlacedIn(outputDir, imageID, q)
  {
    hide PlacedIn, CleanRelativePath, RelSegments, RelPath, FirstFor, FileAt, Names;
    var p :| p in all && p.artifact == a;
    FirstForSome(all, p);
    var q := FirstFor(all, RelPath(a)).value;
    FirstForPath(all, RelPath(a));
    PlacedNames(outputDir, imageID, a);
    assert Placed(outputDir, q.artifact);
    PlacedIsClean(outputDir, q.artifact);
    SameNames(a, q.artifact);
    SameImage(outputDir, imageID, q.artifact);
  }

  /** Every artifact of the image is on disk, and a manifest reads as the registry's answer. */
  lemma {:induction false} ArtifactOnDisk(site: Site, t: Target, world: World, before: Disk, outputDir: string,
                                          imageID: string, all: seq<Planned>, plan: seq<Artifact>,
                                          actions: seq<SyncAction>, served: string -> Bytes, reg: Registry,
                                          root: Digest, reader: Reader, a: Artifact)
    requires Mirrored(site, t, world, before, outputDir, imageID, all, plan, actions, served)
    requires IsPlan(reg, RelSegments(outputDir) + [imageID], root, plan) && WellFormedImage(reg, root) && a in plan
    requires ServesAnswers(reg, all, plan, served, reader)
    ensures var file := FileAt(site, DiskAfter(world, JobsOf(t, actions), before), a.path);
            file.Some? && (a.isManifest ==> a.digest in reg && reader(file.value) == reg[a.digest].body)
  {
    hide *;
    var imageRoot := RelSegments(outputDir) + [imageID];
    MirroredParts(site, t, world, before, outputDir, imageID, all, plan, actions, served);
    PlannedDigests(reg, imageRoot, root, plan, a);
    PlacedFrom(outputDir, imageID, a);
    FirstAtPath(site, before, outputDir, imageID, all, plan, a);
    var q := ArtifactStored(site, t, world, before, outputDir, imageID, all, plan, actions, served, RelPath(a));
    PlannedDigests(reg, imageRoot, root, plan, q.artifact);
    PlacedFrom(outputDir, imageID, q.artifact);
    PathOfPlanned(outputDir, imageID, q.artifact, a);
    SamePathSameDigest(imageRoot, a, q.artifact);
    AnswerOf(reg, all, plan, served, reader, q);
  }

  lemma {:induction false} MirroredParts(site: Site, t: Target, world: World, before: Disk, outputDir: string,
                                         imageID: string, all: seq<Planned>, plan: seq<Artifact>,
                                         actions: seq<SyncAction>, served: string -> Bytes)
    requires Mirrored(site, t, world, before, outputDir, imageID, all, plan, actions, served)
    ensures IsAbs(site.cwd) && t.cwd == site.cwd && t.root == site.root
    ensures TakesPart(site, before, outputDir, imageID, all, plan) && IsMerged(site, before, all, actions)
    ensures HonestWorld(world, JobsOf(t, actions), served)
    ensures NothingFailed(FailuresOf(t, ReportsAfter(world, JobsOf(t, actions), before), actions), plan)
    ensures Name(imageID) && CleanRelativePath(outputDir).Success? && AllPlaced(outputDir, all)
  {
    hide CleanRelativePath, IsMerged, HonestWorld, NothingFailed, Name, AllPlaced;
  }

  lemma PlacedFrom(outputDir: string, imageID: string, a: Artifact)
    requires Name(imageID)
    requires NewArtifact(RelSegments(outputDir) + [imageID], a.isManifest, a.digest, a.size) == Success(a)
    ensures PlacedIn(outputDir, imageID, a)
  {
    hide NewArtifact, RelSegments;
  }

  lemma AnswerOf(reg: Registry, all: seq<Planned>, plan: seq<Artifact>, served: string -> Bytes, reader: Reader,
                 q: Planned)
    requires ServesAnswers(reg, all, plan, served, reader) && q in all && q.artifact in plan
    ensures q.artifact.isManifest ==>
              q.artifact.digest in reg && reader(served(q.url)) == reg[q.artifact.digest].body
  {}

  lemma PathOfPlanned(outputDir: string, imageID: string, q: Artifact, a: Artifact)
    requires CleanRelativePath(outputDir).Success? && RelPath(q) == RelPath(a)
    requires PlacedIn(outputDir, imageID, q) && PlacedIn(outputDir, imageID, a)
    ensures q.path == a.path
  {
    hide PlacedIn, CleanRelativePath, RelPath;
    PlacedNames(outputDir, imageID, q);
    PlacedNames(outputDir, imageID, a);
    SameNames(q, a);
  }

  /** Every file below the image's directory is at the path of one of its artifacts. */
  lemma FileIsPlanned(site: Site, t: Target, world: World, before: Disk, outputDir: string, imageID: string,
                      all: seq<Planned>, plan: seq<Artifact>, actions: seq<SyncAction>, served: string -> Bytes,
                      names: seq<string>) returns (a: Artifact)
    requires Mirrored(site, t, world, before, outputDir, imageID, all, plan, actions, served)
    requires Names(names) && RelSegments(outputDir) + [imageID] <= names
    requires FileAt(site, DiskAfter(world, JobsOf(t, actions), before), names).Some?
    ensures a in plan && a.path == names
  {
    var i := JobThere(site, t, world, before, outputDir, imageID, all, plan, actions, served, names);
    PlanIsClean(site, before, outputDir, all, actions);
    assert actions[i] in actions;
    CleanDest(t, actions[i]);
    var q := FirstFor(all, actions[i].path).value;
    FirstForPath(all, actions[i].path);
    a := q.artifact;
    hide IsMerged, HonestWorld, NothingFailed, DiskAfter, JobsOf, FirstFor, FileAt, RelSegments, CleanRelativePath;
    hide DestPath, SafeJoinUnder, CleanPaths, PlacedIn, Names;
    assert Placed(outputDir, a);
    PlacedIsClean(outputDir, a);
    SamePlace(site, a.path, names);
    SameImage(outputDir, imageID, a);
  }

  /** A file below the image's directory that was not there before is some job's. */
  lemma JobThere(site: Site, t: Target, world: World, before: Disk, outputDir: string, imageID: string,
                 all: seq<Planned>, plan: seq<Artifact>, actions: seq<SyncAction>, served: string -> Bytes,
                 names: seq<string>) returns (i: nat)
    requires Mirrored(site, t, world, before, outputDir, imageID, all, plan, actions, served)
    requires Names(names) && RelSegments(outputDir) + [imageID] <= names
    requires FileAt(site, DiskAfter(world, JobsOf(t, actions), before), names).Some?
    ensures i < |actions| && Fetches(actions[i])
    ensures DestPath(t, actions[i]) == SafeJoinUnder(site.cwd, site.root, JoinSegments(names))
  {
    assert FileAt(site, before, names).None?;
    var dest := SafeJoinUnder(site.cwd, site.root, JoinSegments(names)).value;
    var jobs := JobsOf(t, actions);
    JobsFromActions(t, actions);
    OthersUntouched(world, jobs, before);
    hide IsMerged, HonestWorld, NothingFailed, TakesPart, DiskAfter, JobsOf, SafeJoinUnder, DestPath, RelSegments;
    assert !NoJobGoes(jobs, dest);
    var job :| job in jobs && job.destPath == dest;
    i :| 0 <= i < |actions| && Fetches(actions[i]) && DestPath(t, actions[i]) == Success(job.destPath);
  }

  /** The files of kinds below an image's directory. */
  lemma BelowRoot(outputDir: string, imageID: string, kind: string, algo: string, name: string)
    requires CleanRelativePath(outputDir).Success? && Name(imageID) && Name(kind) && Name(algo) && Name(name)
    ensures var imageRoot := RelSegments(outputDir) + [imageID];
            Names(Below(imageRoot, kind, algo, name)) && imageRoot <= Below(imageRoot, kind, algo, name)
  {
    CleanRelativePathMeaning(outputDir);
    hide CleanRelativePath, RelSegments;
  }

  /** A planned manifest is listed with its answer's body, a planned blob is listed. */
  lemma PlannedIsListed(site: Site, disk: Disk, imageRoot: seq<string>, reader: Reader, dir: ImageDir, reg: Registry,
                        a: Artifact)
    requires Lists(site, disk, imageRoot, reader, dir) && FileAt(site, disk, a.path).Some?
    requires Storable(a.digest) && NewArtifact(imageRoot, a.isManifest, a.digest, a.size) == Success(a)
    requires a.isManifest ==> a.digest in reg && reader(FileAt(site, disk, a.path).value) == reg[a.digest].body
    ensures a.isManifest ==> exists f :: f in dir.manifests && ManifestAt(imageRoot, reg, a, f)
    ensures !a.isManifest ==> exists f :: f in dir.blobs && BlobAt(imageRoot, a, f)
  {
    var algo, hex := StorableNamesOf(imageRoot, a);
    hide FileAt, Storable, NewArtifact, EndsJson, Name;
    if a.isManifest {
      var f :| f in dir.manifests && f.algo == algo && f.name == FileName(true, hex);
      assert ManifestAt(imageRoot, reg, a, f);
    } else {
      assert BlobFile(algo, hex) in dir.blobs && BlobAt(imageRoot, a, BlobFile(algo, hex));
    }
  }

  /** An artifact at the path of a listed file is of that kind. */
  lemma KindOfFile(imageRoot: seq<string>, a: Artifact, isManifest: bool, algo: string, name: string)
    requires Storable(a.digest) && NewArtifact(imageRoot, a.isManifest, a.digest, a.size) == Success(a)
    requires a.path == Below(imageRoot, KindName(isManifest), algo, name)
    ensures a.isManifest == isManifest
  {
    hide *;
    var algo', hex' := StorableNamesOf(imageRoot, a);
    SameBelow(imageRoot, KindName(a.isManifest), algo', FileName(a.isManifest, hex'), KindName(isManifest), algo, name);
    KindTells(a.isManifest, isManifest);
  }

  /**
   * The disk after a first sync of an image is a complete mirror of it: listing its directory and reading its documents
   * gives exactly the planned manifests, with what the registry answered for them, and the planned blobs.
   */
  lemma {:induction false} SyncStores(site: Site, t: Target, world: World, before: Disk, outputDir: string,
                                      imageID: string, all: seq<Planned>, plan: seq<Artifact>, actions: seq<SyncAction>,
                                      served: string -> Bytes, reg: Registry, root: Digest, reader: Reader,
                                      dir: ImageDir)
    requires Mirrored(site, t, world, before, outputDir, imageID, all, plan, actions, served)
    requires IsPlan(reg, RelSegments(outputDir) + [imageID], root, plan) && WellFormedImage(reg, root)
    requires ServesAnswers(reg, all, plan, served, reader)
    requires Lists(site, DiskAfter(world, JobsOf(t, actions), before), RelSegments(outputDir) + [imageID], reader, dir)
    ensures Stores(RelSegments(outputDir) + [imageID], reg, plan, dir)
  {
    hide *;
    var imageRoot, disk := RelSegments(outputDir) + [imageID], DiskAfter(world, JobsOf(t, actions), before);
    MirroredParts(site, t, world, before, outputDir, imageID, all, plan, actions, served);
    forall a | a in plan
      ensures a.isManifest ==> exists f :: f in dir.manifests && ManifestAt(imageRoot, reg, a, f)
      ensures !a.isManifest ==> exists f :: f in dir.blobs && BlobAt(imageRoot, a, f)
    {
      PlannedDigests(reg, imageRoot, root, plan, a);
      ArtifactOnDisk(site, t, world, before, outputDir, imageID, all, plan, actions, served, reg, root, reader, a);
      PlannedIsListed(site, disk, imageRoot, reader, dir, reg, a);
    }
    forall f | f in dir.manifests ensures exists a :: a in plan && ManifestAt(imageRoot, reg, a, f) {
      ListedManifest(site, disk, imageRoot, reader, dir, f);
      BelowRoot(outputDir, imageID, KindName(true), f.algo, f.name);
      var a := FileIsPlanned(site, t, world, before, outputDir, imageID, all, plan, actions, served,
                             Below(imageRoot, KindName(true), f.algo, f.name));
      PlannedDigests(reg, imageRoot, root, plan, a);
      KindOfFile(imageRoot, a, true, f.algo, f.name);
      ArtifactOnDisk(site, t, world, before, outputDir, imageID, all, plan, actions, served, reg, root, reader, a);
      ManifestIsAt(imageRoot, reg, a, f);
    }
    forall f | f in dir.blobs ensures exists a :: a in plan && BlobAt(imageRoot, a, f) {
      ListedBlob(site, disk, imageRoot, reader, dir, f);
      BelowRoot(outputDir, imageID, KindName(false), f.algo, f.hash);
      var a := FileIsPlanned(site, t, world, before, outputDir, imageID, all, plan, actions, served,
                             Below(imageRoot, KindName(false), f.algo, f.hash));
      PlannedDigests(reg, imageRoot, root, plan, a);
      KindOfFile(imageRoot, a, false, f.algo, f.hash);
      BlobIsAt(imageRoot, a, f);
    }
    AllStored(imageRoot, reg, plan, dir);
  }

  lemma AllStored(imageRoot: seq<string>, reg: Registry, plan: seq<Artifact>, dir: ImageDir)
    requires forall a | a in plan && a.isManifest :: exists f :: f in dir.manifests && ManifestAt(imageRoot, reg, a, f)
    requires forall f | f in dir.manifests :: exists a :: a in plan && ManifestAt(imageRoot, reg, a, f)
    requires forall a | a in plan && !a.isManifest :: exists f :: f in dir.blobs && BlobAt(imageRoot, a, f)
    requires forall f | f in dir.blobs :: exists a :: a in plan && BlobAt(imageRoot, a, f)
    ensures Stores(imageRoot, reg, plan, dir)
  {
    hide ManifestAt, BlobAt;
  }

  lemma ListedManifest(site: Site, disk: Disk, imageRoot: seq<string>, reader: Reader, dir: ImageDir, f: ManifestFile)
    requires Lists(site, disk, imageRoot, reader, dir) && f in dir.manifests
    ensures Name(f.algo) && Name(f.name) && Name(KindName(true))
    ensures var file := FileAt(site, disk, Below(imageRoot, KindName(true), f.algo, f.name));
            file.Some? && f.body == reader(file.value)
  {
    hide FileAt;
  }

  lemma ListedBlob(site: Site, disk: Disk, imageRoot: seq<string>, reader: Reader, dir: ImageDir, f: BlobFile)
    requires Lists(site, disk, imageRoot, reader, dir) && f in dir.blobs
    ensures Name(f.algo) && Name(f.hash) && Name(KindName(false))
    ensures FileAt(site, disk, Below(imageRoot, KindName(false), f.algo, f.hash)).Some?
  {
    hide FileAt;
    assert f == BlobFile(f.algo, f.hash);
  }

  lemma ManifestIsAt(imageRoot: seq<string>, reg: Registry, a: Artifact, f: ManifestFile)
    requires a.isManifest && a.path == Below(imageRoot, KindName(true), f.algo, f.name)
    requires a.digest in reg && f.body == reg[a.digest].body
    ensures ManifestAt(imageRoot, reg, a, f)
  {}

  lemma BlobIsAt(imageRoot: seq<string>, a: Artifact, f: BlobFile)
    requires !a.isManifest && a.path == Below(imageRoot, KindName(false), f.algo, f.hash)
    ensures BlobAt(imageRoot, a, f)
  {}

  // ---------------------------------------------------------------- listing an image's directory

  function NamesOf(site: Site, path: string): seq<string> { Parts(Rel(site.root, path)) }

  /** Whether a file is three names below the image's directory, and then by which. */
  predicate IsBelow(site: Site, imageRoot: seq<string>, path: string) {
    var names := NamesOf(site, path);
    && |names| == |imageRoot| + 3 && imageRoot <= names && Names(names)
    && SafeJoinUnder(site.cwd, site.root, JoinSegments(names)) == Success(path)
  }

  lemma {:induction false} PlaceNames(site: Site, names: seq<string>, path: string)
    requires IsAbs(site.cwd) && IsAbs(site.root) && Names(names) && names != []
    requires SafeJoinUnder(site.cwd, site.root, JoinSegments(names)) == Success(path)
    ensures NamesOf(site, path) == names
  {
    NamesJoin(site, names);
    RelFromRoot(site, JoinSegments(names));
    hide SafeJoinUnder, CleanRelativePath, Rel;
    PartsOfJoin(names);
  }

  /** What one more file changes below the image's directory. */
  lemma OneMoreFile(site: Site, disk: Disk, path: string, bytes: Bytes, imageRoot: seq<string>, kind: string,
                    algo: string, name: string)
    requires IsAbs(site.cwd) && IsAbs(site.root) && Names(imageRoot) && Name(kind) && Name(algo) && Name(name)
    ensures FileAt(site, disk[path := bytes], Below(imageRoot, kind, algo, name))
         == if IsBelow(site, imageRoot, path) && NamesOf(site, path) == Below(imageRoot, kind, algo, name)
            then Some(bytes) else FileAt(site, disk, Below(imageRoot, kind, algo, name))
  {
    hide NamesOf, SafeJoinUnder, JoinSegments;
    var names := Below(imageRoot, kind, algo, name);
    assert Names(names) && imageRoot <= names;
    if SafeJoinUnder(site.cwd, site.root, JoinSegments(names)) == Success(path) {
      PlaceNames(site, names, path);
    }
  }

  /** The file is one the two listings are about. */
  predicate IsListed(site: Site, imageRoot: seq<string>, path: string) {
    IsBelow(site, imageRoot, path)
    && (var names, n := NamesOf(site, path), |imageRoot|;
        names[n] == KindName(false) || (names[n] == KindName(true) && EndsJson(names[n + 2])))
  }

  /** The directory with one more file. */
  function ListOne(site: Site, imageRoot: seq<string>, reader: Reader, dir: ImageDir, path: string, bytes: Bytes)
    : ImageDir
    requires IsListed(site, imageRoot, path)
  {
    var names, n := NamesOf(site, path), |imageRoot|;
    if names[n] == KindName(false) then dir.(blobs := dir.blobs + [BlobFile(names[n + 1], names[n + 2])])
    else dir.(manifests := dir.manifests + [ManifestFile(names[n + 1], names[n + 2], reader(bytes))])
  }

  lemma NamesAreBelow(site: Site, imageRoot: seq<string>, path: string)
    requires IsBelow(site, imageRoot, path)
    ensures var names, n := NamesOf(site, path), |imageRoot|;
            names == Below(imageRoot, names[n], names[n + 1], names[n + 2])
            && Name(names[n]) && Name(names[n + 1]) && Name(names[n + 2])
  {
    hide NamesOf, SafeJoinUnder, JoinSegments, Name;
    var names, n := NamesOf(site, path), |imageRoot|;
    assert names[n] in names && names[n + 1] in names && names[n + 2] in names;
    assert names == Below(imageRoot, names[n], names[n + 1], names[n + 2]);
  }

  /** Any other file leaves both listings as they are. */
  lemma ListSkip(site: Site, disk: Disk, imageRoot: seq<string>, reader: Reader, dir: ImageDir, path: string,
                 bytes: Bytes)
    requires IsAbs(site.cwd) && IsAbs(site.root) && Names(imageRoot)
    requires Lists(site, disk, imageRoot, reader, dir) && !IsListed(site, imageRoot, path)
    ensures Lists(site, disk[path := bytes], imageRoot, reader, dir)
  {
    hide IsAbs, Names, Name, NamesOf, FileAt, IsBelow, EndsJson, Below, KindName;
    forall kind, algo, name | (kind == KindName(false) || (kind == KindName(true) && EndsJson(name))) && Name(algo) && Name(name)
      ensures FileAt(site, disk[path := bytes], Below(imageRoot, kind, algo, name))
           == FileAt(site, disk, Below(imageRoot, kind, algo, name))
    {
      KindNameIsName(kind == KindName(true));
      OneMoreFile(site, disk, path, bytes, imageRoot, kind, algo, name);
      if IsBelow(site, imageRoot, path) && NamesOf(site, path) == Below(imageRoot, kind, algo, name) {
        KindListed(site, imageRoot, path, kind, algo, name);
      }
    }
  }

  lemma KindListed(site: Site, imageRoot: seq<string>, path: string, kind: string, algo: string, name: string)
    requires IsBelow(site, imageRoot, path) && NamesOf(site, path) == Below(imageRoot, kind, algo, name)
    requires kind == KindName(false) || (kind == KindName(true) && EndsJson(name))
    ensures IsListed(site, imageRoot, path)
  {
    hide NamesOf, EndsJson, IsBelow;
    var names, n := Below(imageRoot, kind, algo, name), |imageRoot|;
    assert names[n] == kind && names[n + 2] == name;
  }

  /** One file has appeared below the image's directory, and no other has changed. */
  ghost predicate Appeared(site: Site, disk: Disk, disk': Disk, imageRoot: seq<string>, kind: string, algo: string,
                           name: string, bytes: Bytes) {
    && FileAt(site, disk, Below(imageRoot, kind, algo, name)).None?
    && FileAt(site, disk', Below(imageRoot, kind, algo, name)) == Some(bytes)
    && forall k, a, m | Name(k) && Name(a) && Name(m) && (k, a, m) != (kind, algo, name) ::
         FileAt(site, disk', Below(imageRoot, k, a, m)) == FileAt(site, disk, Below(imageRoot, k, a, m))
  }

  lemma NewFileAppears(site: Site, disk: Disk, imageRoot: seq<string>, path: string, bytes: Bytes)
    requires IsAbs(site.cwd) && IsAbs(site.root) && Names(imageRoot) && IsBelow(site, imageRoot, path) && path !in disk
    ensures var names, n := NamesOf(site, path), |imageRoot|;
            Appeared(site, disk, disk[path := bytes], imageRoot, names[n], names[n + 1], names[n + 2], bytes)
  {
    var names, n := NamesOf(site, path), |imageRoot|;
    NamesAreBelow(site, imageRoot, path);
    assert FileAt(site, disk, names).None?;
    hide IsAbs, Names, Name, NamesOf, FileAt, IsBelow, Below;
    OneMoreFile(site, disk, path, bytes, imageRoot, names[n], names[n + 1], names[n + 2]);
    forall k, a, m | Name(k) && Name(a) && Name(m) && (k, a, m) != (names[n], names[n + 1], names[n + 2])
      ensures FileAt(site, disk[path := bytes], Below(imageRoot, k, a, m)) == FileAt(site, disk, Below(imageRoot, k, a, m))
    {
      OneMoreFile(site, disk, path, bytes, imageRoot, k, a, m);
      if Below(imageRoot, k, a, m) == names {
        SameBelow(imageRoot, k, a, m, names[n], names[n + 1], names[n + 2]);
      }
    }
  }

  /** No file of one kind has changed. */
  ghost predicate SameKind(site: Site, disk: Disk, disk': Disk, imageRoot: seq<string>, kind: string) {
    forall a, m | Name(a) && Name(m) ::
      FileAt(site, disk', Below(imageRoot, kind, a, m)) == FileAt(site, disk, Below(imageRoot, kind, a, m))
  }

  lemma OtherKind(site: Site, disk: Disk, disk': Disk, imageRoot: seq<string>, isManifest: bool, algo: string,
                  name: string, bytes: Bytes)
    requires Appeared(site, disk, disk', imageRoot, KindName(isManifest), algo, name, bytes)
    ensures SameKind(site, disk, disk', imageRoot, KindName(!isManifest))
  {
    KindNameIsName(!isManifest);
    if KindName(isManifest) == KindName(!isManifest) { KindTells(isManifest, !isManifest); }
    hide Name, FileAt, Below, KindName;
  }

  lemma ManifestsKept(site: Site, disk: Disk, disk': Disk, imageRoot: seq<string>, reader: Reader,
                      files: seq<ManifestFile>)
    requires ListsManifests(site, disk, imageRoot, reader, files)
    requires SameKind(site, disk, disk', imageRoot, KindName(true))
    ensures ListsManifests(site, disk', imageRoot, reader, files)
  {
    hide Name, FileAt, Below, KindName, EndsJson;
  }

  lemma BlobsKept(site: Site, disk: Disk, disk': Disk, imageRoot: seq<string>, files: seq<BlobFile>)
    requires ListsBlobs(site, disk, imageRoot, files) && SameKind(site, disk, disk', imageRoot, KindName(false))
    ensures ListsBlobs(site, disk', imageRoot, files)
  {
    hide Name, FileAt, Below, KindName;
  }

  lemma AddBlob(site: Site, disk: Disk, disk': Disk, imageRoot: seq<string>, files: seq<BlobFile>, algo: string,
                name: string, bytes: Bytes)
    requires ListsBlobs(site, disk, imageRoot, files) && Name(algo) && Name(name)
    requires Appeared(site, disk, disk', imageRoot, KindName(false), algo, name, bytes)
    ensures ListsBlobs(site, disk', imageRoot, files + [BlobFile(algo, name)])
  {
    KindNameIsName(false);
    hide Name, FileAt, Below, KindName;
  }

  lemma AddManifest(site: Site, disk: Disk, disk': Disk, imageRoot: seq<string>, reader: Reader,
                    files: seq<ManifestFile>, algo: string, name: string, bytes: Bytes)
    requires ListsManifests(site, disk, imageRoot, reader, files) && Name(algo) && Name(name) && EndsJson(name)
    requires Appeared(site, disk, disk', imageRoot, KindName(true), algo, name, bytes)
    ensures ListsManifests(site, disk', imageRoot, reader, files + [ManifestFile(algo, name, reader(bytes))])
  {
    KindNameIsName(true);
    hide Name, FileAt, Below, EndsJson, KindName;
    var f := ManifestFile(algo, name, reader(bytes));
    forall a, m | Name(a) && Name(m) && EndsJson(m) && FileAt(site, disk', Below(imageRoot, KindName(true), a, m)).Some?
      ensures exists g :: g in files + [f] && g.algo == a && g.name == m
    {
      if (a, m) == (algo, name) {
        assert f in files + [f];
      } else {
        var g :| g in files && g.algo == a && g.name == m;
        assert g in files + [f];
      }
    }
    forall g | g in files + [f]
      ensures && Name(g.algo) && Name(g.name) && EndsJson(g.name)
              && var file := FileAt(site, disk', Below(imageRoot, KindName(true), g.algo, g.name));
                 file.Some? && g.body == reader(file.value)
    {
      if g in files {
        assert FileAt(site, disk, Below(imageRoot, KindName(true), g.algo, g.name)).Some?;
      }
    }
  }

  lemma ListAdd(site: Site, disk: Disk, imageRoot: seq<string>, reader: Reader, dir: ImageDir, path: string,
                bytes: Bytes)
    requires IsAbs(site.cwd) && IsAbs(site.root) && Names(imageRoot)
    requires Lists(site, disk, imageRoot, reader, dir) && IsListed(site, imageRoot, path) && path !in disk
    ensures Lists(site, disk[path := bytes], imageRoot, reader, ListOne(site, imageRoot, reader, dir, path, bytes))
  {
    NewFileAppears(site, disk, imageRoot, path, bytes);
    NamesAreBelow(site, imageRoot, path);
    hide IsAbs, Names, Name, NamesOf, IsBelow, Below, EndsJson, ListsManifests, ListsBlobs, Appeared, KindName;
    var names, n, disk' := NamesOf(site, path), |imageRoot|, disk[path := bytes];
    if names[n] == KindName(false) {
      AddBlob(site, disk, disk', imageRoot, dir.blobs, names[n + 1], names[n + 2], bytes);
      OtherKind(site, disk, disk', imageRoot, false, names[n + 1], names[n + 2], bytes);
      ManifestsKept(site, disk, disk', imageRoot, reader, dir.manifests);
    } else {
      AddManifest(site, disk, disk', imageRoot, reader, dir.manifests, names[n + 1], names[n + 2], bytes);
      OtherKind(site, disk, disk', imageRoot, true, names[n + 1], names[n + 2], bytes);
      BlobsKept(site, disk, disk', imageRoot, dir.blobs);
    }
  }

  lemma NothingListed(site: Site, imageRoot: seq<string>, reader: Reader)
    ensures Lists(site, map[], imageRoot, reader, ImageDir([], []))
  {
    hide SafeJoinUnder, JoinSegments;
  }

  /** The two listings of an image's directory, files in some order. */
  method ListImage(site: Site, disk: Disk, imageRoot: seq<string>, reader: Reader) returns (dir: ImageDir)
    requires IsAbs(site.cwd) && IsAbs(site.root) && Names(imageRoot)
    ensures Lists(site, disk, imageRoot, reader, dir)
  {
    hide *;
    dir := ImageDir([], []);
    NothingListed(site, imageRoot, reader);
    var remaining := disk.Keys;
    ghost var walked: Disk := map[];
    while remaining != {}
      invariant remaining <= disk.Keys && walked == disk - remaining
      invariant Lists(site, walked, imageRoot, reader, dir)
      decreases |remaining|
    {
      var path :| path in remaining;
      if IsListed(site, imageRoot, path) {
        ListAdd(site, walked, imageRoot, reader, dir, path, disk[path]);
        dir := ListOne(site, imageRoot, reader, dir, path, disk[path]);
      } else {
        ListSkip(site, walked, imageRoot, reader, dir, path, disk[path]);
      }
      remaining := remaining - {path};
      walked := walked[path := disk[path]];
    }
    assert walked == disk;
  }
}
