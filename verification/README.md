# airgap verification

This project models `airgap`, which mirrors content, packs it for transfer, unpacks it on the far side and pushes
container images to a registry, and proves properties of that model. Everything is checked by Dafny's verifier:
`dafny verify dfyconfig.toml`.

| module | models | main results |
|---|---|---|
| `ManifestGraph`, `ImageDocs`, `ImageMirror`, `ImagePush`, `Agreement`, `PushLimits` | the manifest worklist of the mirror, and root choice, post-order, blob collection and OCI layout of the push side | both graph algorithms agree on arbitrary finite graphs; a mirrored image is pushed whole |
| `DownloadPool` | sender, workers, closer, collector and cancellation as atomic steps | safety, progress and termination over all interleavings |
| `SyncRun`, `PoolSync`, `PoolProgress` | the files on disk and the progress shown while the pool's workers download | any interleaving leaves the disk and results of the jobs done one by one; plan, sync, plan, validate |
| `MirrorDisk`, `MirrorRun` | the image directory a sync leaves and the loader reads | an image mirrored to disk is pushed whole |
| `DownloadClient` | one file's retry, resume and verify loop | resume invariant over any calls, self-healing |
| `ExportPacking`, `Transfer`, `ImportPackage`, `RoundTrip` | split archives, manifest, import modes and validation records | next-fit bounds, gating over any runs, export/import round trip |
| `SyncEngine`, `StoreTables`, `ProgressTracker`, `Sums` | plan execution, tables and progress | every action counted once, records as a folded map, table and tracker invariants |
| `ImagePaths`, `ImageFixpoint`, `ImageReferences` | artifact paths, planning against disk, validation, references | sync converges, when validation inverts the paths, reference normal form |
| `SafePaths`, `Text` | lexical path checks and digest grammar | the string checks refine a segment stack |

Three layers keep the proofs apart. Operations that the source runs step by step are methods, or methods of a class
holding the same fields; their contracts tie the new state to specification functions. What those functions mean is
proved by lemmas. `hide` statements in proofs keep definitions closed where only their contracts matter, and
`{:induction false}` marks every lemma Dafny would otherwise try to prove by an induction of its own.

Where the code does less than its callers may expect, the exact condition is proved:

- Push ignores children that are not on disk, so a layout is closed exactly when none is missing (`Agreement.LayoutClosure`,
  and `PushLimits.PushWithoutChild` where one is).
- A mirrored root is recovered from a tag, or from a digest spelled differently, exactly when no mirrored manifest
  lists it (`Agreement.MirrorPushAgreement`; `PushLimits.SelfListedLosesRoot` where it lists itself).
- The two readers of a manifest agree exactly on documents with references of one role (`ImageDocs.ReadersAgree`,
  `ImageDocs.TwoRoles`).
- A download gives up on a stale file that makes it ask for a range past the end, although the server is up
  (`DownloadClient.SelfHealing`, `DownloadClient.StaleFile`), and without a checksum it can report a wrong file of the
  right size (`DownloadClient.SizeOnlyResume`, `DownloadClient.WrongPrefix`).
- A provider named twice is exported twice and summarised once, so summaries agree with the inventory exactly when no
  provider that has files is named twice (`Transfer.SummaryCountsFiles`, `Transfer.SummaryAddsUp`, `Transfer.NamedTwice`).
- A completed import need not have extracted anything: it has extracted every archive exactly under the condition of
  `ImportPackage.CompletedExtracts` (`ImportPackage.VerifyThenSkip`, `ImportPackage.ListedTwice`). A cancelled one leaves
  its transfer row running, exactly when `ImportPackage.RunInterrupted` says (`ImportPackage.CancelledAtOnce`).
- Deletes count as work that never ends and refused jobs are never counted, so a sync ends at 100 percent exactly under
  the condition of `PoolProgress.RunPercent` (`SyncEngine.DeleteNeverEnds`).
- A sync that meets a refused path returns an error and leaves its run row running (`SyncEngine.LeftRunning`,
  `SyncEngine.RefusedPath`).
- Validation takes the first names of a path that spell a digest, so it reads a file's own digest exactly when the output
  and image directories spell none, or one that gives the same hash (`ImagePaths.PathGivesChecksum`); below any other
  directory it calls good files invalid or checks nothing (`ImageFixpoint.DigestDirDecides`,
  `ImageFixpoint.OutputDirBreaksValidation`).
- Two images of one registry can be kept in one directory, a/b and a_b under one tag for instance; the exact condition is
  `ImagePaths.SharedDirectory` (`ImagePaths.TwoInOneDirectory`). Mirroring and pushing an image whole is proved for images
  with a directory of their own.
- The printed form of a reference without a scheme can be unparsable (`ImageReferences.NormalForm`,
  `ImageReferences.PrintedFormRefused`).

## Model

| member | source | states |
|---|---|---|
| Text.ParseDigest | internal/provider/containerimages/provider.go:435-458 | a digest is accepted only when its algorithm and hex parts, trimmed and lower-cased, are non-empty and over their alphabets |
| Text.DigestMeaning | internal/provider/containerimages/provider.go:435-458 | which texts are a digest, on characters: with blanks around, letters, digits and ._+- before the colon and hexadecimal digits after it, in any letter case, which is lowered |
| Text.SplitMeaning | internal/engine/registry_push.go:570-581 | blanks around the parts of a digest make no difference to either reader |
| Text.DigestRoundTrip | internal/provider/containerimages/provider.go:435-458 | a valid algorithm and hex part joined by a colon are read back unchanged by the mirror and by the push side |
| Text.CanonicalReadersAgree | internal/engine/registry_push.go:570-581 | on canonical digests the push side splits exactly as the mirror parses |
| ManifestGraph.AcyclicHasSource | internal/engine/registry_push.go:309-334 | an acyclic non-empty manifest graph always has a manifest nobody lists |
| ManifestGraph.UniqueSourceReachesAll | internal/engine/registry_push.go:321-331 | in an acyclic graph the only manifest without inbound references reaches every manifest |
| ManifestGraph.RootedSources | internal/engine/registry_push.go:309-334 | when everything is reachable from a root, the root is the only candidate if nothing lists it, and otherwise there is none |
| ManifestGraph.ClimbToSource | internal/engine/registry_push.go:309-328 | walking references backwards in an acyclic graph ends at a source that reaches the start |
| ManifestGraph.FrontierDone | internal/provider/containerimages/provider.go:475-532 | an empty queue means exactly the reachable manifests were seen and all their children exist |
| ImageDocs.ReadersAgree | internal/engine/registry_push.go:257-300 | the push side reads the same children and blobs out of a trimmed document as the mirror exactly when the document lists references of only one role |
| ImageDocs.TwoRoles | internal/engine/registry_push.go:257-300 | a document with a child manifest and a layer is read differently by the two sides, whatever its media type |
| ImageDocs.UniqueStrings | internal/engine/registry_push.go:607-619 | the trimmed non-empty values, each once |
| ImageDocs.UniqueInOrder | internal/engine/registry_push.go:607-619 | values come in the order of their first occurrence |
| ImageDocs.MirrorReads | internal/provider/containerimages/provider.go:537-573 | which references of a document the mirror follows, by kind of content: the children, or the config and the layers |
| ImageDocs.PushReadsEverything | internal/engine/registry_push.go:257-300 | the push side reads every reference of a document, whatever its media type |
| ImageMirror.EnqueueChildren | internal/provider/containerimages/provider.go:504-516 | every unseen child is fetched and queued, nothing else is; one unfetchable child fails the plan |
| ImageMirror.PlanBlobs | internal/provider/containerimages/provider.go:518-531 | one action per blob not planned before; a malformed blob digest fails the plan |
| ImageMirror.VisitManifest | internal/provider/containerimages/provider.go:483-531 | visiting one queued manifest keeps the whole worklist invariant, or fails only on an artifact that cannot be planned |
| ImageMirror.PlanImage | internal/provider/containerimages/provider.go:460-535 | on every registry the worklist ends; on one that answers by content it succeeds exactly when everything reachable can be mirrored, and plans exactly one action per reachable manifest and per blob |
| ImagePush.CountChildren | internal/engine/registry_push.go:313-319 | only references to stored manifests count as inbound |
| ImagePush.CountInbound | internal/engine/registry_push.go:309-319 | a manifest has inbound references exactly when a stored manifest lists it |
| ImagePush.RootCandidates | internal/engine/registry_push.go:321-327 | the candidates are exactly the sources of the stored graph |
| ImagePush.ChooseRootDigest | internal/engine/registry_push.go:302-348 | the referenced digest if stored, else the only source, else the only source that looks like an index, else an error; what that means on media types and documents is stated by the next rows |
| ImagePush.IndexChosen | internal/engine/registry_push.go:336-345 | when several manifests are listed by no other, and one has an index media type and the others image media types, in any letter case, the index is the root |
| ImagePush.TwoIndexesRefused | internal/engine/registry_push.go:336-348 | with two indexes among them no root is chosen |
| ImagePush.DocumentTypes | internal/engine/registry_push.go:257-300 | the media type of a document that gives none: index if it lists a child, image if it lists none and has a config or a layer |
| ImagePush.IndexDocumentChosen | internal/engine/registry_push.go:257-345 | the same choice from the documents on disk, whether or not they give a media type |
| ImagePush.PostOrderWalk.Visit | internal/engine/registry_push.go:350-372 | the recursive closure keeps the depth-first invariant on any finite graph and finishes its manifest last |
| ImagePush.BuildManifestPostOrder | internal/engine/registry_push.go:350-372 | the order lists exactly the stored manifests reachable from the root, once each, root last, every child before its parent unless the child leads back to it |
| ImagePush.AcyclicChildrenFirst | internal/engine/registry_push.go:350-372 | without cycles every present child stands strictly before its parent |
| ImagePush.UniqueCandidateCoversAll | internal/engine/registry_push.go:350-372 | when the single candidate of an acyclic image is the root, the order lists every stored manifest |
| ImagePush.AcyclicHasCandidate | internal/engine/registry_push.go:332-334 | the error "no root candidates" is impossible on an acyclic image |
| ImagePush.CollectRequiredBlobDigests | internal/engine/registry_push.go:374-392 | exactly the non-empty blobs the ordered manifests name, once each |
| ImagePush.AssembleBundle | internal/engine/registry_push.go:226-254 | a bundle is assembled exactly when a root is chosen and every blob it needs is on disk |
| ImagePush.LoadLocalImageBundle | internal/engine/registry_push.go:196-255 | loading succeeds exactly when a root is determined and no required blob is missing, and then gives the root, order and blobs of the stored graph |
| ImagePush.WriteManifests | internal/engine/registry_push.go:505-517 | every ordered manifest is written at its digest; it fails exactly on a digest that cannot be split |
| ImagePush.CopyBlobs | internal/engine/registry_push.go:519-535 | every required blob is added at its digest; it fails exactly on a missing source or a digest that cannot be split |
| ImagePush.WriteOCILayout | internal/engine/registry_push.go:499-568 | the layout holds exactly the ordered manifests and the required blobs, manifests as documents unless a blob has the same address |
| Agreement.StorablePath | internal/provider/containerimages/provider.go:763-802 | a canonical digest with a plain algorithm name is stored at a path that spells it |
| Agreement.LoadedGraph | internal/engine/registry_push.go:205-224 | the graph rebuilt from disk is the reachable part of the graph the mirror walked |
| Agreement.RequiredBlobsAgree | internal/engine/registry_push.go:374-392 | the blobs the loader requires are exactly those the mirror planned |
| Agreement.ReferenceNamesRoot | internal/provider/containerimages/provider.go:460-480 | when the registry answers by content, a reference never names another manifest of the image it answers with |
| Agreement.MirrorPushAgreement | internal/engine/registry_push.go:196-255 | after a complete mirror into an empty directory the loader finds the same manifests and blobs; the root chosen is the referenced digest if it is one of them, else the mirrored root exactly when nothing lists it, else none |
| Agreement.AcyclicMirrorPushes | internal/engine/registry_push.go:302-348 | under content addressing every complete mirror is pushed from its own root |
| Agreement.LayoutClosure | internal/engine/registry_push.go:499-568 | the layout written from any loaded directory is closed under all descriptors exactly when no listed child is missing on disk |
| Agreement.OneImageIsTransferable | internal/provider/containerimages/provider.go:460-535 | the hypotheses can be met: a one-manifest image with a blob, under any storable digests, is transferable by any reference it is served under |
| Agreement.StorePlanStores | internal/provider/containerimages/provider.go:763-802 | carrying out every action of a plan is a complete mirror |
| Agreement.LoadMirror | internal/engine/registry_push.go:196-255 | loading a stored plan succeeds and chooses the mirrored root |
| Agreement.MirrorThenPush | internal/engine/registry_push.go:196-255 | planning, storing, loading and laying out a transferable image carries over root, manifests and blobs with no dangling descriptor |
| PushLimits.PushWithoutChild | internal/engine/registry_push.go:350-392 | an index whose child is not on disk is loaded and laid out without an error, and its layout has a dangling descriptor |
| PushLimits.SelfListedLosesRoot | internal/engine/registry_push.go:302-348 | an index that lists itself is mirrored whole, and by its tag no root is found again |
| PushLimits.MirrorSelfListed | internal/engine/registry_push.go:196-255 | planning and storing such an image succeeds, and loading it fails |
| DownloadPool.StepInv | internal/download/pool.go:53-173 | every atomic step of sender, workers, closer, collector or cancellation keeps the invariant: each job in one place, channel bounds, faithful reports, cancellation budget |
| DownloadPool.RunInv | internal/download/pool.go:53-173 | the invariant holds in every state of every run |
| DownloadPool.SendNeverBlocks | internal/download/pool.go:60-77 | no send on either channel ever waits |
| DownloadPool.Progress | internal/download/pool.go:53-173 | every state before the end has an enabled step, so the pool never deadlocks |
| DownloadPool.StepUsesWork | internal/download/pool.go:53-173 | every step, the cancellation included, uses up a bounded amount of work |
| DownloadPool.RunLength | internal/download/pool.go:53-173 | a run over n jobs has at most 7n + workers + 4 steps |
| DownloadPool.FinishedPlaces | internal/download/pool.go:67-103 | at the end each sent job is among the results or was left in the channel by a cancellation |
| DownloadPool.ResultsInOrder | internal/download/pool.go:98-103 | the results are in strictly increasing job order, each about its own job, and no worker sends more than two after the cancellation |
| DownloadPool.ExecuteReturnsAll | internal/download/pool.go:53-103 | without a cancellation result i is the download result of job i, for every job |
| DownloadClient.Client.DownloadAttempt | internal/download/client.go:182-294 | one attempt appends on 206, rewrites on 200, verifies, and removes what fails the test |
| DownloadClient.Client.Download | internal/download/client.go:80-180 | the retry loop with its resume, removal and cancellation rules; each way an attempt can go is stated by the next five rows |
| DownloadClient.NoAttempt | internal/download/client.go:89-94 | with no attempt left, or the context cancelled before it, the file stays as it is |
| DownloadClient.PermanentRefusal | internal/download/client.go:156-165 | a status from 400 to 499 other than 429 ends the download at that attempt, with that error and no file |
| DownloadClient.PassingRefusal | internal/download/client.go:156-176 | any other status is tried again while attempts are left, on the same file |
| DownloadClient.BrokenTransfer | internal/download/client.go:182-294 | a transfer that breaks keeps what has arrived, for the next attempt or, if the context broke it, for a later download |
| DownloadClient.WholeTransfer | internal/download/client.go:262-294 | a transfer that ends succeeds exactly with the expected checksum or, without one, the expected size if any; otherwise the file is removed and the next attempt starts from nothing |
| DownloadClient.SuccessDescribesFile | internal/download/client.go:262-294 | whatever the network does, a success reports the size and hash of the bytes on disk and they pass the test |
| DownloadClient.DownloadKeepsPart | internal/download/client.go:89-294 | against an honest server the file stays absent or a prefix of the content, and every success leaves exactly the content |
| DownloadClient.RepeatedDownloadsKeepPart | internal/download/client.go:89-294 | the same over any series of calls with any options, cut short in any way |
| DownloadClient.SelfHealing | internal/download/client.go:96-158 | with a checksum and two attempts, an available server heals any file within two attempts exactly when no range past the end is asked for; otherwise the file in the way is removed |
| DownloadClient.StaleFile | internal/download/client.go:96-158 | a stale file of three bytes in the way of two, with a wrong expected size, makes one call against a good server give up on a 416 |
| DownloadClient.SelfHealingExact | internal/download/client.go:96-158 | with the right size too the result is always exactly the content |
| DownloadClient.SizeOnlyResume | internal/download/client.go:271-287 | without a checksum a resumed download of the right size is reported as a success, and has the content exactly when the file in the way was a prefix of it or the server sent everything |
| DownloadClient.WrongPrefix | internal/download/client.go:271-287 | one wrong byte in the way, no checksum and a range reply: a success is reported for a file that is not the content |
| DownloadClient.RefusalRemovesFile | internal/download/client.go:325-341 | a status error is reported only for a permanent refusal, and the file is gone |
| ExportPacking.Splitter.Add | internal/engine/export.go:186-211 | one turn of the split loop keeps the packing of the files so far |
| ExportPacking.Splitter.Split | internal/engine/export.go:181-228 | the archives are a next-fit packing: nothing lost, moved or empty, each within the split size or empty files followed by one oversize file |
| ExportPacking.AdjacentExceed | internal/engine/export.go:198-210 | two neighbouring archives together exceed the split size |
| ExportPacking.NextFitBound | internal/engine/export.go:186-228 | k archives satisfy k <= 2 * ceil(total / split size) - 1 |
| ExportPacking.TwiceOptimal | internal/engine/export.go:186-228 | k <= 2 * m - 1 for any distribution of the files over m archives of at most the split size |
| ExportPacking.EmptyFilesOneArchive | internal/engine/export.go:198-201 | files of no recorded size all go into one archive |
| Transfer.CollectProvider | internal/engine/export.go:83-100 | the records of one provider whose files are on disk, with their count and size |
| Transfer.OnDiskExactly | internal/engine/export.go:83-100 | each record whose file is on disk is kept as often as it is listed, empty files too, and no other record is |
| Transfer.OnDiskInOrder | internal/engine/export.go:83-100 | the kept records stand in the order of the listing |
| Transfer.CollectFiles | internal/engine/export.go:73-102 | all files on disk in provider order; each listed provider summarised by its own files |
| Transfer.CollectedExactly | internal/engine/export.go:73-102 | exactly the records of listed providers whose files are on disk are collected |
| Transfer.CollectedInOrder | internal/engine/export.go:73-102 | provider by provider, in the order they are named |
| Transfer.CollectedOf | internal/engine/export.go:73-102 | the files of a provider in the inventory are its files on disk, as often as the provider is named |
| Transfer.SummaryCountsFiles | internal/engine/export.go:73-102 | a provider summary counts the files, and the bytes, the inventory lists for it exactly when the provider is named once or has none on disk |
| Transfer.NamedTwice | internal/engine/export.go:73-102 | a provider named twice lists each of its files twice and summarises them once |
| Transfer.SummaryAddsUp | internal/engine/export.go:73-102 | over all providers the summaries add up to the number of inventory files exactly when no provider with files is named twice, and to the total size exactly when none with bytes is |
| Transfer.ArchivesListInventory | internal/engine/export.go:212-253 | the file lists of the archives in the manifest, one after another, are the inventory |
| Transfer.LinesDescribe | internal/engine/export.go:122-180 | each line of the manifest has the size, the hash and, in order, the entry names of what is in its archive |
| Transfer.ArchiveNamesDiffer | internal/engine/export.go:119-120 | archive names with different numbers differ, past three digits too |
| Transfer.PaddedMeaning | internal/engine/export.go:119-120 | the number in an archive name has that value, at least three digits, and zeros in front only to get there |
| Transfer.WritePackage | internal/engine/export.go:212-253 | every archive is written under its own name and described by its size, hash and file list |
| Transfer.Export | internal/engine/export.go:46-315 | export fails exactly on a split size that is not positive, nothing to export, or a cancellation; otherwise it is a packing of the collected files with matching manifest, whose inventory is exactly the records of listed providers with their files on disk |
| ImportPackage.Importer.ValidateArchive | internal/engine/import.go:92-141 | one archive is validated, skipped or rejected by mode, and only a validated one adds a row, with the hash of the manifest |
| ImportPackage.Importer.ValidateArchives | internal/engine/import.go:82-154 | the loop stops at the first archive before which it is cancelled and has then done exactly the validation of those before it |
| ImportPackage.ValidatedAfter | internal/engine/import.go:92-141 | after validating some archives, validated are those that were and those of the list that matched their hash or were forced |
| ImportPackage.ValidationCounts | internal/engine/import.go:82-154 | every archive is counted once, failed are exactly the ones neither known, forced nor matching their hash, and skipped exactly the ones known before or listed again |
| ImportPackage.SkipsExactly | internal/engine/import.go:92-103 | a name is skipped exactly in skip-validated mode without Force, when an archive of that name was validated before the run or earlier in it |
| ImportPackage.Importer.Import | internal/engine/import.go:39-253 | the method computes the import specification: new state and outcome for every package, mode and cancellation |
| ImportPackage.RunTransfers | internal/engine/import.go:69-242 | a run whose package is complete opens one transfer row, which ends completed or failed once or stays running, and no other row changes; any other run changes nothing |
| ImportPackage.RunRows | internal/engine/import.go:104-141 | validation rows are only added, each for the transfer of this run and one of its archives, with the hash the archive has unless forced |
| ImportPackage.RunGated | internal/engine/import.go:143-166 | the data directory changes only when every archive was accepted and the run is not verify-only; a refused run reports exactly the archives it does not accept |
| ImportPackage.RunSkips | internal/engine/import.go:92-103 | the names a run skips, by what was recorded before it |
| ImportPackage.RunInterrupted | internal/engine/import.go:83-88 | a run leaves its row running exactly when it is cancelled before validating some archive, or it accepts all, extracts, and is cancelled before an archive up to which extraction goes through |
| ImportPackage.InterruptedLeaves | internal/engine/import.go:168-198 | an interrupted run leaves the records as they were and exactly the archives before the stop extracted |
| ImportPackage.BrokenLeaves | internal/engine/import.go:168-208 | a run whose extraction fails has extracted the archives before the first that cannot be, counts their files only, keeps what that one has written and records nothing |
| ImportPackage.CancelledAtOnce | internal/engine/import.go:83-88 | a run cancelled before its first archive leaves a row that says running for good, and nothing else |
| ImportPackage.CompletedExtracts | internal/engine/import.go:156-198 | a completed run has extracted every archive exactly when there is none, or it is not verify-only and has Force, or does not skip validated ones, or found none validated before and none listed twice |
| ImportPackage.CompletedEither | internal/engine/import.go:156-231 | a completed run either only verified, or extracted what it does not skip and upserted the inventory |
| ImportPackage.RunRecords | internal/engine/import.go:104-141 | what is validated after a run that accepted everything |
| ImportPackage.RunsTransfers | internal/engine/import.go:56-80 | over any runs the row a run wrote is its own and keeps its status |
| ImportPackage.RunsVouched | internal/engine/import.go:104-141 | over any runs without Force from an empty store, every validation row was written by one of them for its own transfer and carries a hash its archive then had |
| ImportPackage.RunsGated | internal/engine/import.go:143-166 | over any such runs, one that changes the data directory has every archive of its manifest matching its hash in this run or in an earlier run from the same directory |
| ImportPackage.ListedTwice | internal/engine/import.go:92-103 | an archive listed twice is skipped by name on its first skip-validated import, so nothing is extracted |
| ImportPackage.VerifyThenSkip | internal/engine/import.go:92-231 | completed does not mean extracted: verify-only followed by a skip-validated import completes without writing a file; it records exactly the inventory files that were in the data directory already, so none in an empty one |
| ImportPackage.Importer.ExtractArchives | internal/engine/import.go:168-198 | the archives not skipped are extracted in order up to the first failure or cancellation, with the data and counts of exactly those |
| ImportPackage.Importer.ExtractInto | internal/engine/import.go:255-320 | regular entries with accepted names are written, directories skipped, anything else fails; the entry an archive breaks off in leaves a partial file that is not counted |
| ImportPackage.EntriesCounted | internal/engine/import.go:274-320 | extraction goes through exactly when every entry is a directory or a regular file under an accepted name, and counts the regular files and their bytes |
| ImportPackage.EntryAt | internal/engine/import.go:274-320 | each path then holds the content of the last regular file that goes there, or what it held before |
| ImportPackage.FirstBadEntry | internal/engine/import.go:274-296 | the first entry that is neither, a link or an unsafe name, ends extraction with what the entries before it have left |
| ImportPackage.ArchiveExtracted | internal/engine/import.go:255-320 | an archive is extracted exactly when its entries can be and it does not break off, and what the entry it breaks off in leaves |
| ImportPackage.RunsConfined | internal/engine/import.go:288-296 | over any imports of any packages, in any mode and however cut short, every file in the data directory has a path strictly below it |
| ImportPackage.Importer.RecordInventory | internal/engine/import.go:210-231 | the loop computes the inventory upsert, whose meaning is stated by the next two rows |
| ImportPackage.InventoryMeaning | internal/engine/import.go:210-231 | a record is there afterwards exactly when it was before or some inventory file of its key is in the data directory under an accepted path, and the last such file decides its size and hash |
| ImportPackage.RecordedKeys | internal/engine/import.go:210-231 | the keys afterwards are those before and those of the inventory files in the data directory |
| RoundTrip.ProviderPathsClean | internal/engine/export.go:212-213 | a single-name provider and an accepted path under it always make an accepted archive entry |
| RoundTrip.EntriesRestored | internal/engine/import.go:255-320 | extracting the entries of some files adds exactly those files, counts and bytes |
| RoundTrip.ExportRestored | internal/engine/import.go:168-198 | extracting every archive of an export gives exactly the exported files |
| RoundTrip.InventoryRecorded | internal/engine/import.go:210-231 | upserting an inventory that is on disk records each file and touches nothing else |
| RoundTrip.ExportImported | internal/engine/import.go:39-253 | a plain import of an export completes with exactly the exported files, counts and records |
| RoundTrip.ImportExport | internal/engine/import.go:39-253 | importing an export into an empty directory completes, recreates exactly the exported path-to-bytes map, counts every file once and records exactly the inventory |
| RoundTrip.ExportedTotals | internal/engine/export.go:73-102 | when no file is exported twice, the archives, the inventory, the provider summaries and the totals all agree in files and bytes |
| RoundTrip.ExportThenImport | internal/engine/export.go:46-315 | the same for Export followed by Import; inventory, archives and provider summaries agree in files and recorded sizes, and the report counts the bytes on disk, which is the total size when the recorded sizes are right |
| SafePaths.CleanRelativePathMeaning | internal/safety/path.go:11-27 | a path is accepted exactly when it is relative, resolves to at least one name and does not lead upward; the result is those names |
| SafePaths.DownAndUp | internal/safety/path.go:11-27 | a name leads one down, ".." from there back up, "." and an extra slash nowhere |
| SafePaths.JoinIsClean | internal/safety/path.go:31-37 | joining gives an empty path only for two empty ones, and otherwise one that is already clean |
| SafePaths.EnsureUnderRootMeaning | internal/safety/path.go:41-59 | a candidate is accepted exactly when the root's names are a prefix of its names |
| SafePaths.SafeJoinMeaning | internal/safety/path.go:31-37 | joining succeeds exactly when the relative path is accepted, and gives the root's names followed by its names, strictly below the root |
| SafePaths.RelOfSafeJoin | internal/safety/path.go:31-59 | taking the joined path relative to the root gives the cleaned path back |
| SafePaths.CleanRelativePathIdempotent | internal/safety/path.go:11-27 | cleaning an accepted path again changes nothing |
| SafePaths.NestedJoin | internal/safety/path.go:31-37 | joining a and then b is joining a/b |
| SafePaths.SafeJoinInjective | internal/safety/path.go:31-37 | two accepted paths join to the same place exactly when they clean to the same path |
| SafePaths.DottedNamesAccepted | internal/safety/path.go:23-25 | names that merely start with two dots are accepted |
| StoreTables.UpsertIsMapUpdate | internal/store/sqlite.go:197-226 | an upsert is a map update exactly when its id is not the id of a row with another key |
| StoreTables.DeleteIsMapRemove | internal/store/sqlite.go:286-304 | a delete removes exactly its key from the map |
| StoreTables.ProviderRows | internal/store/sqlite.go:307-330 | the count and sum queries of a provider count and sum its part of the map |
| StoreTables.FileRuns | internal/store/sqlite.go:197-330 | over any upserts without an id and any deletes the table stands for the map under the same operations, and the queries agree with it |
| StoreTables.AddFailedMeaning | internal/store/sqlite.go:337-390 | a failure is absorbed by the file's waiting row, empty fields erasing nothing, or becomes its waiting row; no other file is affected |
| StoreTables.ResolveMeaning | internal/store/sqlite.go:430-448 | resolving a row ends the wait of exactly the file it is about |
| StoreTables.FailedRuns | internal/store/sqlite.go:337-473 | over any calls on an initially empty table at most one row waits per file, and no row ever loses a URL, destination, checksum, size, retry or its resolution |
| StoreTables.Store.UpsertFileRecord | internal/store/sqlite.go:197-226 | the new id and the whole new map, and when it is a plain map update |
| StoreTables.Store.DeleteFileRecord | internal/store/sqlite.go:286-304 | the map without the key; an error exactly when the key was not there |
| StoreTables.Store.CountFileRecords | internal/store/sqlite.go:307-317 | the number of the provider's records |
| StoreTables.Store.SumFileSize | internal/store/sqlite.go:320-330 | the total size of the provider's records |
| StoreTables.Store.AddFailedFile | internal/store/sqlite.go:337-390 | at most one waiting row per file is kept and nothing recorded is lost |
| StoreTables.Store.ResolveFailedFile | internal/store/sqlite.go:430-448 | the rows with the id are resolved and nothing else changes; an error exactly when there is none |
| StoreTables.Store.IncrementFailedRetry | internal/store/sqlite.go:451-473 | the rows with the id count one more retry and nothing else changes; an error exactly when there is none |
| ProgressTracker.SyncTracker.Wait | internal/engine/progress.go:180-184 | the channel handed out is open and is the one the next update closes |
| ProgressTracker.SyncTracker.Signal | internal/engine/progress.go:188-191 | the current channel is closed once and replaced; every channel handed out before was closed exactly once |
| ProgressTracker.SyncTracker.RecalculateBytes | internal/engine/progress.go:238-243 | the total over the file map, in whatever order it is visited |
| ProgressTracker.SyncTracker.UpdateFileProgress | internal/engine/progress.go:220-248 | a throttled update changes nothing and signals nobody; any other keeps bytes equal to the sum over the file map |
| ProgressTracker.SyncTracker.AddRecentEvent | internal/engine/progress.go:251-256 | the recent events stay the newest twenty in reverse order |
| ProgressTracker.SyncTracker.FileCompleted | internal/engine/progress.go:259-283 | one more completed file and event, bytes recomputed, listeners signalled |
| ProgressTracker.SyncTracker.FileFailed | internal/engine/progress.go:286-300 | one more failed file and event; the bytes already downloaded still count |
| ProgressTracker.SyncTracker.Snapshot | internal/engine/progress.go:104-176 | the percentage is the order-independent blended one, lies in 0..100 and is 100 once every file to process is done; the files under way are exactly those neither done nor failed |
| ProgressTracker.PercentBounds | internal/engine/progress.go:108-129 | the blended percentage is within its bounds for every file map |
| ProgressTracker.ShareMeaning | internal/engine/progress.go:115-122 | a file under way counts for the part of it that has arrived |
| ProgressTracker.NeverBackwards | internal/engine/progress.go:108-129 | more bytes of a file under way raise the percentage unless it is full, and a download that ends, well or badly, does not lower it |
| ProgressTracker.NewestPush | internal/engine/progress.go:251-256 | prepending and cutting at the cap is what keeps the newest events |
| Sums.TotalPut | internal/engine/progress.go:238-243 | a total over a map changes by exactly the share of the key that is set |
| SyncEngine.SyncManager.BuildJobs | internal/engine/sync.go:208-232 | jobs are built exactly when every download path resolves |
| SyncEngine.SyncManager.IndexResults | internal/engine/sync.go:265-271 | each destination is indexed to its newest result |
| SyncEngine.ReportForMeaning | internal/engine/sync.go:265-271 | the result on a destination is the last one about it, and there is none exactly when no result is about it |
| SyncEngine.VerdictMeaning | internal/engine/sync.go:276-350 | what the verdict on an action says about the last result on its destination, and which error it carries |
| SyncEngine.SyncManager.FetchResult | internal/engine/sync.go:276-350 | one download action is counted, recorded or reported, and written to the dead letters by its verdict; what a dead letter holds is stated by LetterStep and LettersMeaning |
| SyncEngine.SyncManager.ProcessResults | internal/engine/sync.go:273-400 | the report, records, dead letters and removals are those the actions and results call for |
| SyncEngine.SyncManager.CountDry | internal/engine/sync.go:176-205 | a dry run counts every action once and changes nothing |
| SyncEngine.SyncManager.SyncProvider | internal/engine/sync.go:104-437 | every report counts each plan action once; the run row ends with the totals of the report and the status of the outcome; records are the old map folded over the actions |
| SyncEngine.EveryActionCounted | internal/engine/sync.go:258-400 | downloaded + failed + skipped + deleted is the number of plan actions, cancelled runs included |
| SyncEngine.LastSay | internal/engine/sync.go:274-375 | the last action with a say on a record decides it, with the size and hash of its own success; other records stay |
| SyncEngine.FirstSyncAccounts | internal/engine/sync.go:276-400 | after a first sync of a plan with distinct paths, the count and the total size of the provider in the store are the number of downloads and the bytes transferred of the report |
| SyncEngine.FailuresMeaning | internal/engine/sync.go:276-350 | the failures of a report are the downloads that did not succeed, in order, each with its path, URL, error and number of attempts |
| SyncEngine.LetterStep | internal/engine/sync.go:301-350 | a download that reported an error leaves a waiting row with the URL, checksum and size of the action where given, its destination, the error, and one more retry; any other action changes no waiting row |
| SyncEngine.LettersMeaning | internal/engine/sync.go:301-350 | the same over a whole plan with distinct paths, for the waiting row of every file |
| SyncEngine.RemovedExactly | internal/engine/sync.go:352-374 | exactly the destinations of the deletes are removed |
| SyncEngine.RemovalsBelow | internal/engine/sync.go:352-374 | no path outside the provider's directory is ever removed |
| SyncEngine.EndedDownloads | internal/download/pool.go:148-171 | a finished pool run calls back at most once a job, and once for every job exactly when every job was downloaded |
| SyncEngine.FinalPercent | internal/engine/progress.go:108-129 | after a finished pool run with nothing shown as under way, 100 percent is shown exactly when the plan has actions, no deletes, and every download was made |
| SyncEngine.DeleteNeverEnds | internal/engine/sync.go:157-170 | a plan with one delete ends at 0 percent |
| PoolProgress.NextInv | internal/download/pool.go:148-171 | through every step of the pool and all progress inside downloads, a file shown as under way is being downloaded and every ended download is counted |
| PoolProgress.EndShown | internal/engine/sync.go:245-256 | when the pool has finished nothing is shown as under way, and the tracker has counted exactly the call backs |
| PoolProgress.RunShown | internal/download/pool.go:148-171 | with distinct destinations every download that ended is shown as it ended, in every later state of every run: done with the size of its result, or failed |
| PoolProgress.RunPercent | internal/engine/sync.go:157-256 | after any finished run of pool and tracker, cancelled or not, 100 percent is shown exactly when the plan has actions, no deletes, and every download was made |
| SyncEngine.LeftRunning | internal/engine/sync.go:208-225 | a run row is left running for good exactly when the run is not dry and the provider name or some download path is refused |
| SyncEngine.RefusedPath | internal/engine/sync.go:208-225 | a plan with one download to a path that leads upward leaves its run row running |
| SyncEngine.OwnReport | internal/engine/sync.go:265-271 | with distinct destinations an action is judged by the result of its own job |
| SyncEngine.PoolVerdict | internal/engine/sync.go:276-350 | after any finished pool run a download's verdict is what its worker decided, and "missing" exactly when a cancellation kept the job from a worker |
| ImagePaths.LocalImageIDIsName | internal/provider/containerimages/provider.go:936-949 | an image's directory is a single safe path name for every reference |
| ImagePaths.IDSpells | internal/provider/containerimages/provider.go:936-949 | the directory of a plainly written reference is its text with an underscore for every slash, colon, at-sign and plus |
| ImagePaths.SharedDirectory | internal/provider/containerimages/provider.go:936-949 | two such references share a directory exactly when their texts differ only in those characters and underscores |
| ImagePaths.TwoInOneDirectory | internal/provider/containerimages/provider.go:936-949 | the images a/b and a_b of one registry, under one tag, are kept in one directory |
| ImagePaths.ArtifactPathNames | internal/provider/containerimages/provider.go:763-802 | the path an artifact gets, dot algorithms included |
| ImagePaths.OwnNames | internal/provider/containerimages/provider.go:971-988 | the last three names of an artifact path spell its digest |
| ImagePaths.EarlyHitWins | internal/provider/containerimages/provider.go:971-988 | a digest spelled by the leading names decides for everything below them |
| ImagePaths.SilentPrefix | internal/provider/containerimages/provider.go:971-988 | leading names that spell no digest leave the reading to their last two and what follows |
| ImagePaths.PathReading | internal/provider/containerimages/provider.go:763-802 | what validation reads from an artifact path, for every output directory, image directory and digest, dot algorithms included |
| ImagePaths.PathGivesChecksum | internal/provider/containerimages/provider.go:971-988 | validation reads back from a path exactly the checksum the plan gave the artifact if and only if the output directory and the image directory spell no digest, or the first one they spell gives that checksum (a file of the algorithm "..", which lands in the image directory itself, adds one case) |
| ImageFixpoint.PlainIsSafe | internal/provider/containerimages/provider.go:971-988 | in an output directory without a name blobs or manifests every planned file is read by its own digest |
| ImageFixpoint.SkipMeansInPlace | internal/provider/containerimages/provider.go:811-917 | the planner skips an artifact exactly when the file in place would pass the downloader's own test; path, URL, checksum and size of the action |
| ImageFixpoint.Plan | internal/provider/containerimages/provider.go:114-161 | one action per path, for the first artifact planned there, over every image that could be planned |
| ImageFixpoint.Collect | internal/provider/containerimages/provider.go:136-140 | an image's actions are added only at paths not taken yet |
| ImageFixpoint.FirstForPath | internal/provider/containerimages/provider.go:136-140 | the artifact planned for a path is the first one planned there, and there is none exactly when no artifact has the path |
| ImageFixpoint.PlanDestinations | internal/engine/sync.go:213-237 | distinct plan paths are downloaded to distinct destinations |
| ImageFixpoint.PlannedInPlace | internal/engine/sync.go:213-255 | after a sync every planned artifact is in place unless the report lists its download as failed |
| ImageFixpoint.SyncReachesFixpoint | internal/provider/containerimages/provider.go:811-917 | planning again after a sync gives the same paths, with work only for those the report lists as failed |
| ImageFixpoint.Validate | internal/provider/containerimages/provider.go:189-299 | exactly the files below the output directory whose sha256 path disagrees with their content are invalid, and the counts add up |
| ImageFixpoint.InPlaceValidity | internal/provider/containerimages/provider.go:189-299 | a planned file in place is valid exactly when validation reads no hash from its path or the one the file has |
| ImageFixpoint.SyncedIsValid | internal/provider/containerimages/provider.go:189-299 | after a sync every invalid file the plan knows is one the report lists as failed, when the names above the planned files leave their own digests to be read |
| ImageFixpoint.DigestDirDecides | internal/provider/containerimages/provider.go:971-988 | below a directory that spells a digest, exactly the files with that hash are valid, or all of them if it is not a sha256 digest |
| ImageFixpoint.OutputDirBreaksValidation | internal/provider/containerimages/provider.go:971-988 | under an output directory that spells a sha256 digest a file is valid only if it has that very hash |
| SyncRun.OwnFile | internal/download/client.go:80-180 | with distinct destinations each job of a list works on its file as it was before the sync |
| SyncRun.ThreeAttempts | internal/download/pool.go:128-151 | a job whose server does not answer is tried three times: the third attempt can still succeed, a fourth is not made |
| SyncRun.ReportsMeaning | internal/download/pool.go:98-103 | exactly the jobs some worker took are reported, each with what its own download did |
| SyncRun.JobsDeliver | internal/engine/sync.go:213-255 | after the downloads of a plan every success describes the file at its destination, and files nobody downloads to are untouched |
| SyncRun.RecordsDescribe | internal/engine/sync.go:276-350 | after a sync the record of every downloaded path that is not reported as failed has the size and hash of the file at its destination |
| SyncRun.PlanSyncPlan | internal/engine/sync.go:104-437 | plan, sync, plan and validate in a row: the sync goes through and removes nothing, records describe the files, each failed download and no other has its dead letter, the second plan has work only for reported failures, and every invalid file is one of those or unknown to the plan |
| MirrorRun.PlanImages | internal/provider/containerimages/provider.go:120-141 | every reference that parses and can be planned contributes its image, placed in its own directory below the output directory; the others contribute nothing |
| MirrorRun.MirrorAll | internal/provider/containerimages/provider.go:114-161 | planning the references, then sync, second plan and validation, for any registries and downloads when the output directory has no name blobs or manifests |
| MirrorDisk.FetchedContent | internal/download/client.go:80-180 | a file that was not there and is not reported as failed holds exactly what an honest server has at its URL |
| MirrorDisk.ArtifactOnDisk | internal/provider/containerimages/provider.go:763-802 | after a first sync of an image every artifact is on disk at its path, and a manifest reads as the registry answered |
| MirrorDisk.FileIsPlanned | internal/engine/sync.go:213-255 | every file below the directory of the image is at the path of one of its artifacts |
| MirrorDisk.SyncStores | internal/engine/registry_push.go:196-224 | listing and reading that directory gives exactly the planned manifests and blobs: the sync is a complete mirror |
| MirrorDisk.ListImage | internal/engine/registry_push.go:196-224 | the two listings of an image directory: exactly the files manifests/*/*.json and blobs/*/* |
| MirrorRun.PushFrom | internal/engine/registry_push.go:196-255 | push gives a bundle and a layout exactly when a root is chosen, its blobs are on disk and its digests can be split |
| MirrorRun.MirrorAndPush | internal/engine/registry_push.go:130-255 | plan, sync and push by way of the disk: with honest servers and no reported failure, a transferable image with a directory of its own is pushed whole, without dangling descriptors |
| PoolSync.NextInv | internal/download/pool.go:106-173 | every step of the pool and every write inside a download keeps each file with its own job |
| PoolSync.RunInv | internal/download/pool.go:53-173 | that holds in every state of every run |
| PoolSync.FinishedRun | internal/download/pool.go:53-173 | a finished run, in any interleaving and with any cancellation, returns the results and leaves the disk of the same jobs done one after another |
| PoolSync.ConcurrentSync | internal/engine/sync.go:234-255 | a finished run over the jobs of a plan delivers as the planner and validation need |
| PoolSync.Proceeds | internal/download/pool.go:53-173 | until the collector finishes some step can be taken, with the result the download it ends must have |
| ImageReferences.Parse | internal/provider/containerimages/provider.go:316-425 | the step-by-step parser computes the specified reference or error, whose meaning on characters is stated by the next rows |
| ImageReferences.PlainReference | internal/provider/containerimages/provider.go:340-433 | a reference without a scheme and with a slash: the text before the first slash is the registry, lower-cased, if it has a dot or a colon or is localhost, and otherwise begins a Docker Hub repository; what follows is read as repository, tag or digest |
| ImageReferences.FirstNameDecides | internal/provider/containerimages/provider.go:340-364 | where the registry ends and the repository begins |
| ImageReferences.BareReference | internal/provider/containerimages/provider.go:340-364 | a reference without a slash is a Docker Hub repository |
| ImageReferences.SchemeReference | internal/provider/containerimages/provider.go:322-364 | a reference with a scheme parses only with docker or oci, in any letter case, and then its host is the registry whatever it looks like, if a URL can have it |
| ImageReferences.HostCaseBlind | internal/provider/containerimages/provider.go:350-364 | the letter case of the first name makes no difference |
| ImageReferences.FinishMeaning | internal/provider/containerimages/provider.go:366-424 | how the rest is read as repository, tag and digest, when it is accepted, and the registry, endpoint and repository of Docker Hub |
| ImageReferences.FinishAgain | internal/provider/containerimages/provider.go:364-425 | repository, reference and Docker Hub defaults are stable under printing and parsing again |
| ImageReferences.NormalForm | internal/provider/containerimages/provider.go:316-458 | over plain text the printed form parses to the same reference exactly when the registry is a valid URL host, as it always is for references written with a scheme |
| ImageReferences.PrintedFormRefused | internal/provider/containerimages/provider.go:316-425 | a:b/c parses and its printed form does not |

## Left out

- HTTP transport, bearer tokens, TLS, skopeo and createrepo_c: the registry is a map of answers, the server a function that is honest or available by definition, the push ends with the OCI layout.
- JSON, tar, zstd and SHA-256: documents are parsed values, or what a given reader makes of bytes, an archive codec is an encode/decode pair, hashes are uninterpreted functions; injectivity is assumed only where a lemma says so.
- ImageDocs.MirrorReads: the classification of a content type into index, image or unknown is a parameter, because it is a table of media type strings.
- Text.ParseDigest: lower-casing covers ASCII letters, not Unicode case folding; white space covers the code points of unicode.IsSpace.
- ImagePush.CollectRequiredBlobDigests: does not model the final sort; the result is compared as a list without duplicates.
- ImagePush.RootCandidates: does not model the sort of the candidates, which only makes the choice independent of map order.
- ImportPackage.Importer.ValidateArchive: does not model an archive that is present but cannot be read, which the code counts as failed.
- ImageFixpoint.Plan: does not model the sort of the paths; the actions come out in some order.
- ProgressTracker.SyncTracker.Snapshot: does not model floating-point rounding, the sort of the files under way, transfer speed, ETA and elapsed time.
- ImageReferences.Parse: follows url.Parse on plain characters only; percent-encoding, IPv6 literals, queries and fragments are outside its alphabet.
- Digests built with an algorithm "." or ".." are mirrored by the code to paths without an algorithm; they are in the worklist and path results but excluded from the mirror-then-push agreement (`Agreement.StorablePath`).
- SyncEngine.SyncManager.SyncProvider: does not make the calls to the progress tracker itself; the tracker is modelled on its own, and with the pool that calls it back in `PoolProgress`.
- Error texts: a failed download has one fixed phrase for each kind of error, without the status, the path or the number of attempts.
- Operating system failures (open, create, stat, mkdir, remove, close) and store write failures are not modelled; the code logs and continues or returns an error there.
- Import numbers of a transfer whose row could not be created, the inventory's stat errors and the compression option of Export.
- Clocks, timestamps, backoff delays and logging; the progress throttle takes the time as a parameter.
- Integer widths: sizes, counts and row ids are unbounded.
- The disk is a map from paths to bytes. In `PoolSync` a download's own writes may put any bytes at its destination until it ends, but its result is fixed by the file it began with: two downloads to one destination are not modelled.
- ImageFixpoint.Validate: does not model cancellation of the walk, files that cannot be read, or the order of the invalid list.
- internal/provider/registry/provider.go:359-433 runs the same worklist as the container image provider; one model covers both, its tag filtering is not part of this model.
- EPEL, RHCOS and OCP planners, mirror discovery, scheduling, the CLI and the HTTP handlers: easy or plumbing.
- SyncAll, ScanAll and the retry handlers over dead letters: loops over the operations modelled here.
