/** planImage: the worklist that turns an image reference into one action per manifest and blob. */
module ImageMirror {
  import opened Text
  import opened ManifestGraph
  import opened ImageDocs
  import opened SafePaths

  /**
   * What the registry answers for one manifest reference: its content digest header or else the body's hash, and the
   * kind its content type falls in.
   */
  datatype Reply = Reply(digest: string, kind: Kind, body: Body, size: nat)

  /** The answers of a registry for one repository; a reference that is not a key cannot be fetched. */
  type Registry = map<string, Reply>

  /** An artifact to mirror: path is the list of names of its cleaned path under the provider directory. */
  datatype Artifact = Artifact(isManifest: bool, digest: string, path: seq<string>, checksum: string, size: int)

  function FetchManifest(reg: Registry, ref: string): (r: Result<Reply>)
    ensures r.Success? <==> ref in reg && ParseDigest(reg[ref].digest).Success?
  {
    if ref !in reg then Failure("manifest not found")
    else match ParseDigest(reg[ref].digest)
      case Failure(_) => Failure("invalid digest returned by registry")
      case Success(_) => Success(reg[ref])
  }

  function ExpectedChecksum(algo: string, hex: string): string { if algo == "sha256" then hex else "" }

  function ArtifactPath(imageRoot: seq<string>, isManifest: bool, algo: string, hex: string): seq<string> {
    Walk(imageRoot, if isManifest then ["manifests", algo, hex + ".json"] else ["blobs", algo, hex], false)
  }

  /** newManifestAction and newBlobAction */
  function NewArtifact(imageRoot: seq<string>, isManifest: bool, digest: string, size: int): (r: Result<Artifact>)
    ensures r.Success? <==> ParseDigest(digest).Success?
    ensures r.Success? ==> r.value.isManifest == isManifest && r.value.digest == digest
  {
    match ParseDigest(digest)
    case Failure(e) => Failure(e)
    case Success((algo, hex)) =>
      Success(Artifact(isManifest, digest, ArtifactPath(imageRoot, isManifest, algo, hex),
                       ExpectedChecksum(algo, hex), size))
  }

  // ---------------------------------------------------------------- what a plan should contain

  ghost function Children(reply: Reply): set<string> { MirrorChildren(reply.kind, reply.body) }

  ghost function Blobs(reply: Reply): set<string> { MirrorBlobs(reply.kind, reply.body) }

  /**
   * The registry answers by content: the digest of any answer fetches that same answer, and a manifest listed as a
   * child answers with the digest it was asked for.
   */
  ghost predicate Consistent(reg: Registry) {
    && (forall ref | ref in reg :: reg[ref].digest in reg && reg[reg[ref].digest] == reg[ref])
    && (forall ref, c | ref in reg && c in Children(reg[ref]) && c in reg :: reg[c].digest == c)
  }

  /** The fetchable manifests, each with the digests it makes the mirror follow. */
  ghost function RegistryGraph(reg: Registry): Graph {
    map d | d in reg && FetchManifest(reg, d).Success? :: Children(reg[d])
  }

  ghost function Reachable(reg: Registry, root: Digest): set<Digest> { ReachableFrom(RegistryGraph(reg), root) }

  ghost predicate IsBlobOf(reg: Registry, root: Digest, b: string) {
    exists u :: u in Reachable(reg, root) && b in Blobs(reg[u])
  }

  /** Every manifest the root leads to can be fetched, and every blob named on the way has a well-formed digest. */
  ghost predicate Mirrorable(reg: Registry, root: Digest) {
    && (forall u, c | u in Reachable(reg, root) && c in Children(reg[u]) :: FetchManifest(reg, c).Success?)
    && (forall b | IsBlobOf(reg, root, b) :: ParseDigest(b).Success?)
  }

  function DigestsOf(plan: seq<Artifact>, isManifest: bool): seq<string> {
    if plan == [] then []
    else
      var n := |plan| - 1;
      DigestsOf(plan[..n], isManifest) + if plan[n].isManifest == isManifest then [plan[n].digest] else []
  }

  /** The blob descriptors the mirror reads out of an answer. */
  ghost function BlobList(reply: Reply): seq<Descriptor> { Dependencies(reply.kind, reply.body).1 }

  /** A manifest has the size of its answer, a blob the size one of the seen manifests gives for it. */
  ghost predicate Sized(reg: Registry, seen: set<string>, a: Artifact) {
    if a.isManifest then a.digest in reg && a.size == reg[a.digest].size
    else exists u :: u in seen && u in reg && Descriptor(a.digest, a.size) in BlobList(reg[u])
  }

  ghost predicate SizesFrom(reg: Registry, seen: set<string>, plan: seq<Artifact>) {
    forall a | a in plan :: Sized(reg, seen, a)
  }

  /** Exactly one action per reachable manifest and per referenced blob, each built from its digest. */
  ghost predicate IsPlan(reg: Registry, imageRoot: seq<string>, root: Digest, plan: seq<Artifact>) {
    && NoDuplicates(DigestsOf(plan, true))
    && NoDuplicates(DigestsOf(plan, false))
    && (forall d :: d in DigestsOf(plan, true) <==> d in Reachable(reg, root))
    && (forall b :: b in DigestsOf(plan, false) <==> IsBlobOf(reg, root, b))
    && (forall a | a in plan :: NewArtifact(imageRoot, a.isManifest, a.digest, a.size) == Success(a))
    && SizesFrom(reg, Reachable(reg, root), plan)
  }

  // ---------------------------------------------------------------- invariants of the worklist

  ghost function QueueDigests(queue: seq<Reply>): set<string> { set item | item in queue :: item.digest }

  /** Queued answers are what their own digests fetch. */
  ghost predicate SelfNamed(reg: Registry, queue: seq<Reply>) {
    forall item | item in queue ::
      item.digest in reg && reg[item.digest] == item && FetchManifest(reg, item.digest).Success?
  }

  /** The seen blobs are those of the seen manifests, and all have well-formed digests. */
  ghost predicate BlobsCovered(reg: Registry, seen: set<string>, seenBlobs: set<string>) {
    && seen <= reg.Keys
    && (forall u, b | u in seen && b in Blobs(reg[u]) :: b in seenBlobs)
    && (forall b | b in seenBlobs :: ParseDigest(b).Success? && exists u :: u in seen && b in Blobs(reg[u]))
  }

  /** The plan holds one well-built action per seen manifest and per seen blob. */
  ghost predicate PlanOf(imageRoot: seq<string>, seen: set<string>, seenBlobs: set<string>, plan: seq<Artifact>) {
    && NoDuplicates(DigestsOf(plan, true))
    && NoDuplicates(DigestsOf(plan, false))
    && (forall d :: d in DigestsOf(plan, true) <==> d in seen)
    && (forall b :: b in DigestsOf(plan, false) <==> b in seenBlobs)
    && (forall a | a in plan :: NewArtifact(imageRoot, a.isManifest, a.digest, a.size) == Success(a))
  }

  lemma QueuePop(queue: seq<Reply>)
    requires queue != []
    ensures QueueDigests(queue) == QueueDigests(queue[1..]) + {queue[0].digest}
  {
    assert queue == [queue[0]] + queue[1..];
  }

  lemma UnreadableHasNoDependencies(reply: Reply)
    requires ParseManifestDependencies(reply.kind, reply.body).Failure?
    ensures Children(reply) == {} && Blobs(reply) == {}
  {
    assert Digests([]) == {};
  }

  lemma {:induction false} DigestsOfAppend(plan: seq<Artifact>, a: Artifact, isManifest: bool)
    ensures DigestsOf(plan + [a], isManifest)
         == DigestsOf(plan, isManifest) + if a.isManifest == isManifest then [a.digest] else []
  {
    assert (plan + [a])[..|plan|] == plan;
  }

  lemma PlanManifest(imageRoot: seq<string>, seen: set<string>, seenBlobs: set<string>, plan: seq<Artifact>,
                     a: Artifact)
    requires PlanOf(imageRoot, seen, seenBlobs, plan) && a.isManifest && a.digest !in seen
    requires NewArtifact(imageRoot, true, a.digest, a.size) == Success(a)
    ensures PlanOf(imageRoot, seen + {a.digest}, seenBlobs, plan + [a])
  {
    DigestsOfAppend(plan, a, true);
    DigestsOfAppend(plan, a, false);
  }

  // ---------------------------------------------------------------- the loops

  /** The answers queued for a list of children: one for every unseen child, and nothing else. */
  ghost predicate Queued(reg: Registry, children: set<string>, seen: set<string>, more: seq<Reply>) {
    && (forall c | c in children && c !in seen :: FetchManifest(reg, c).Success? && reg[c] in more)
    && (forall x | x in more :: IsAnswerFor(reg, children, x))
  }

  ghost predicate IsAnswerFor(reg: Registry, children: set<string>, x: Reply) {
    exists c :: c in children && c in reg && reg[c] == x && FetchManifest(reg, c).Success?
  }

  lemma DigestsTake(ds: seq<Descriptor>, i: nat)
    requires i < |ds|
    ensures Digests(ds[..i + 1]) == Digests(ds[..i]) + if ds[i].digest == "" then {} else {ds[i].digest}
    ensures Digests(ds[..i + 1]) <= Digests(ds)
  {
    assert ds[..i + 1] == ds[..i] + [ds[i]];
  }

  /** The children loop: fetch every child not seen yet and put the answers at the end of the queue. */
  method EnqueueChildren(reg: Registry, children: seq<Descriptor>, seen: set<string>) returns (r: Result<seq<Reply>>)
    ensures r.Success? ==> Queued(reg, Digests(children), seen, r.value)
    ensures r.Failure? ==> exists c :: c in Digests(children) && FetchManifest(reg, c).Failure?
  {
    var queued: seq<Reply> := [];
    for i := 0 to |children|
      invariant Queued(reg, Digests(children[..i]), seen, queued)
    {
      var child := children[i].digest;
      DigestsTake(children, i);
      if child == "" || child in seen {
        continue;
      }
      var fetched := FetchManifest(reg, child);
      if fetched.Failure? {
        return Failure("fetching child manifest: " + fetched.error);
      }
      queued := queued + [fetched.value];
      assert IsAnswerFor(reg, Digests(children[..i + 1]), fetched.value);
    }
    assert children[..|children|] == children;
    r := Success(queued);
  }

  lemma PlanBlob(imageRoot: seq<string>, seen: set<string>, seenBlobs: set<string>, plan: seq<Artifact>, a: Artifact)
    requires PlanOf(imageRoot, seen, seenBlobs, plan) && !a.isManifest && a.digest !in seenBlobs
    requires NewArtifact(imageRoot, false, a.digest, a.size) == Success(a)
    ensures PlanOf(imageRoot, seen, seenBlobs + {a.digest}, plan + [a])
  {
    DigestsOfAppend(plan, a, true);
    DigestsOfAppend(plan, a, false);
  }

  /** The blob loop: one action per blob not planned yet. */
  method PlanBlobs(imageRoot: seq<string>, blobs: seq<Descriptor>, ghost seen: set<string>, seenBlobs: set<string>,
                   plan: seq<Artifact>)
    returns (r: Result<seq<Artifact>>, seenBlobs': set<string>)
    requires PlanOf(imageRoot, seen, seenBlobs, plan)
    ensures r.Failure? ==> exists b :: b in Digests(blobs) && ParseDigest(b).Failure?
    ensures r.Success? ==>
              && seenBlobs' == seenBlobs + Digests(blobs)
              && PlanOf(imageRoot, seen, seenBlobs', r.value)
              && (forall a | a in r.value :: a in plan || (!a.isManifest && Descriptor(a.digest, a.size) in blobs))
              && (forall b | b in Digests(blobs) && b !in seenBlobs :: ParseDigest(b).Success?)
  {
    hide PlanOf, ParseDigest, ArtifactPath;
    seenBlobs' := seenBlobs;
    var out := plan;
    for i := 0 to |blobs|
      invariant seenBlobs' == seenBlobs + Digests(blobs[..i])
      invariant PlanOf(imageRoot, seen, seenBlobs', out)
      invariant forall a | a in out :: a in plan || (!a.isManifest && Descriptor(a.digest, a.size) in blobs)
      invariant forall b | b in Digests(blobs[..i]) && b !in seenBlobs :: ParseDigest(b).Success?
    {
      var blob := blobs[i];
      DigestsTake(blobs, i);
      if blob.digest == "" || blob.digest in seenBlobs' {
        continue;
      }
      var action := NewArtifact(imageRoot, false, blob.digest, blob.size);
      if action.Failure? {
        assert blob.digest in Digests(blobs);
        r := Failure(action.error);
        return;
      }
      PlanBlob(imageRoot, seen, seenBlobs', out, action.value);
      seenBlobs' := seenBlobs' + {blob.digest};
      out := out + [action.value];
    }
    assert blobs[..|blobs|] == blobs;
    r := Success(out);
  }

  /** What the children loop queued, seen from the graph. */
  lemma QueuedChildren(reg: Registry, item: Reply, seen: set<string>, more: seq<Reply>)
    requires Consistent(reg) && item.digest in reg && reg[item.digest] == item
    requires FetchManifest(reg, item.digest).Success?
    requires Queued(reg, Children(item), seen, more)
    ensures SelfNamed(reg, more)
    ensures var kids := RegistryGraph(reg)[item.digest];
            QueueDigests(more) <= kids <= QueueDigests(more) + seen
  {
    forall c | c in Children(item) && c !in seen ensures c in QueueDigests(more) {
      assert reg[c] in more && reg[c].digest == c;
    }
  }

  /** Every seen manifest's children could be fetched. */
  lemma SeenChildrenFetched(reg: Registry, seen: set<string>)
    requires forall u, c | u in seen && u in reg && c in Children(reg[u]) :: c in RegistryGraph(reg)
    ensures forall u, c | u in seen && u in reg && c in Children(reg[u]) :: FetchManifest(reg, c).Success?
  {
    forall u, c | u in seen && u in reg && c in Children(reg[u]) ensures FetchManifest(reg, c).Success? {
      assert c in RegistryGraph(reg);
    }
  }

  lemma DoneIsPlan(reg: Registry, imageRoot: seq<string>, root: Digest, seen: set<string>, seenBlobs: set<string>,
                   plan: seq<Artifact>)
    requires Frontier(RegistryGraph(reg), root, seen, {}) && BlobsCovered(reg, seen, seenBlobs)
    requires PlanOf(imageRoot, seen, seenBlobs, plan) && SizesFrom(reg, seen, plan)
    ensures Mirrorable(reg, root) && IsPlan(reg, imageRoot, root, plan)
  {
    FrontierDone(RegistryGraph(reg), root, seen);
    SeenChildrenFetched(reg, seen);
    assert forall b :: b in seenBlobs <==> IsBlobOf(reg, root, b);
  }

  /** The whole worklist invariant on a consistent registry. */
  ghost predicate Working(reg: Registry, root: Digest, queue: seq<Reply>, seen: set<string>, seenBlobs: set<string>,
                          plan: seq<Artifact>) {
    && Frontier(RegistryGraph(reg), root, seen, QueueDigests(queue))
    && SelfNamed(reg, queue)
    && BlobsCovered(reg, seen, seenBlobs)
    && SizesFrom(reg, seen, plan)
  }

  lemma WorkingStart(reg: Registry, ref: string)
    requires Consistent(reg) && FetchManifest(reg, ref).Success?
    ensures Working(reg, reg[ref].digest, [reg[ref]], {}, {}, [])
  {
    var root := reg[ref].digest;
    assert QueueDigests([reg[ref]]) == {root};
    FrontierStart(RegistryGraph(reg), root);
  }

  lemma WorkingSkip(reg: Registry, root: Digest, queue: seq<Reply>, seen: set<string>, seenBlobs: set<string>,
                    plan: seq<Artifact>)
    requires Working(reg, root, queue, seen, seenBlobs, plan) && queue != [] && queue[0].digest in seen
    ensures Working(reg, root, queue[1..], seen, seenBlobs, plan)
  {
    QueuePop(queue);
    FrontierSkip(RegistryGraph(reg), root, seen, QueueDigests(queue), queue[0].digest, QueueDigests(queue[1..]));
  }

  /** Visiting the head of the queue: its children are queued, its blobs and itself are planned. */
  lemma WorkingVisit(reg: Registry, root: Digest, queue: seq<Reply>, seen: set<string>, seenBlobs: set<string>,
                     plan: seq<Artifact>, more: seq<Reply>, seenBlobs': set<string>, plan': seq<Artifact>)
    requires Consistent(reg) && Working(reg, root, queue, seen, seenBlobs, plan) && queue != []
    requires Queued(reg, Children(queue[0]), seen + {queue[0].digest}, more)
    requires seenBlobs' == seenBlobs + Blobs(queue[0])
    requires forall b | b in Blobs(queue[0]) && b !in seenBlobs :: ParseDigest(b).Success?
    requires SizesFrom(reg, seen + {queue[0].digest}, plan')
    ensures Working(reg, root, queue[1..] + more, seen + {queue[0].digest}, seenBlobs', plan')
  {
    QueuePop(queue);
    assert queue[0] in queue;
    FrontierAfter(reg, root, queue, seen, more);
    QueuedChildren(reg, queue[0], seen + {queue[0].digest}, more);
    BlobsVisit(reg, seen, seenBlobs, queue[0]);
  }

  lemma FrontierAfter(reg: Registry, root: Digest, queue: seq<Reply>, seen: set<string>, more: seq<Reply>)
    requires Consistent(reg) && queue != [] && SelfNamed(reg, queue)
    requires Frontier(RegistryGraph(reg), root, seen, QueueDigests(queue))
    requires Queued(reg, Children(queue[0]), seen + {queue[0].digest}, more)
    ensures Frontier(RegistryGraph(reg), root, seen + {queue[0].digest}, QueueDigests(queue[1..] + more))
  {
    var item, rest := queue[0], queue[1..];
    HeadFacts(reg, queue, seen, more);
    VisitedChildrenPresent(reg, item, seen, root, QueueDigests(queue));
    QueuePop(queue);
    QueueJoin(rest, more);
    hide Frontier, RegistryGraph, QueueDigests, Queued, SelfNamed, Consistent;
    FrontierVisit(RegistryGraph(reg), root, seen, QueueDigests(queue), item.digest, QueueDigests(rest),
                  QueueDigests(more));
  }

  lemma QueueJoin(a: seq<Reply>, b: seq<Reply>)
    ensures QueueDigests(a + b) == QueueDigests(a) + QueueDigests(b)
  {}

  lemma HeadFacts(reg: Registry, queue: seq<Reply>, seen: set<string>, more: seq<Reply>)
    requires Consistent(reg) && queue != [] && SelfNamed(reg, queue)
    requires Queued(reg, Children(queue[0]), seen + {queue[0].digest}, more)
    ensures var d := queue[0].digest;
            && d in RegistryGraph(reg) && d in reg && reg[d] == queue[0] && d in QueueDigests(queue)
            && QueueDigests(more) <= RegistryGraph(reg)[d] <= QueueDigests(more) + (seen + {d})
            && forall c | c in Children(queue[0]) && c !in seen + {d} :: FetchManifest(reg, c).Success?
  {
    assert queue[0] in queue;
    QueuedChildren(reg, queue[0], seen + {queue[0].digest}, more);
    hide ParseDigest;
  }

  lemma VisitedChildrenPresent(reg: Registry, item: Reply, seen: set<string>, root: Digest, queued: set<string>)
    requires item.digest in RegistryGraph(reg) && reg[item.digest] == item
    requires Frontier(RegistryGraph(reg), root, seen, queued) && item.digest in queued
    requires forall c | c in Children(item) && c !in seen + {item.digest} :: FetchManifest(reg, c).Success?
    ensures RegistryGraph(reg)[item.digest] <= RegistryGraph(reg).Keys
  {
    FrontierPresent(RegistryGraph(reg), root, seen, queued);
    assert RegistryGraph(reg)[item.digest] == Children(item);
    hide FetchManifest, Children, Frontier;
    forall c | c in Children(item) && c !in seen + {item.digest} ensures c in RegistryGraph(reg) { InGraph(reg, c); }
  }

  lemma FrontierPresent(g: Graph, root: Digest, seen: set<Digest>, queued: set<Digest>)
    requires Frontier(g, root, seen, queued)
    ensures seen <= g.Keys
  {
    forall c | c in seen ensures c in g { ReachesEnds(g, root, c); }
  }

  lemma InGraph(reg: Registry, c: string)
    requires FetchManifest(reg, c).Success?
    ensures c in RegistryGraph(reg)
  {
    hide ParseDigest;
  }

  lemma BlobsVisit(reg: Registry, seen: set<string>, seenBlobs: set<string>, item: Reply)
    requires BlobsCovered(reg, seen, seenBlobs) && item.digest in reg && reg[item.digest] == item
    requires forall b | b in Blobs(item) && b !in seenBlobs :: ParseDigest(b).Success?
    ensures BlobsCovered(reg, seen + {item.digest}, seenBlobs + Blobs(item))
  {
    var seen' := seen + {item.digest};
    forall b | b in seenBlobs + Blobs(item)
      ensures ParseDigest(b).Success? && exists u :: u in seen' && b in Blobs(reg[u])
    {
      if b in seenBlobs {
        var u :| u in seen && b in Blobs(reg[u]);
        assert u in seen';
      } else {
        assert item.digest in seen';
      }
    }
  }

  /**
   * planImage. It terminates on every registry, cycles and repeated answers included. On a consistent registry it
   * succeeds exactly when the root can be fetched and everything it leads to can be mirrored, and then plans exactly
   * one action per reachable manifest and per blob.
   */
  method PlanImage(reg: Registry, imageRoot: seq<string>, ref: string) returns (r: Result<seq<Artifact>>)
    ensures FetchManifest(reg, ref).Failure? ==> r.Failure?
    ensures Consistent(reg) && FetchManifest(reg, ref).Success? ==>
              (r.Success? <==> Mirrorable(reg, reg[ref].digest))
    ensures Consistent(reg) && r.Success? ==> IsPlan(reg, imageRoot, reg[ref].digest, r.value)
    ensures r.Success? ==>
              forall a | a in r.value :: NewArtifact(imageRoot, a.isManifest, a.digest, a.size) == Success(a)
  {
    var rootReply := FetchManifest(reg, ref);
    if rootReply.Failure? {
      return Failure(rootReply.error);
    }
    ghost var root := rootReply.value.digest;
    var queue := [rootReply.value];
    var seen: set<string>, seenBlobs: set<string> := {}, {};
    var plan: seq<Artifact> := [];
    ghost var answers := set k | k in reg :: reg[k].digest;
    if Consistent(reg) {
      WorkingStart(reg, ref);
    }
    while queue != []
      invariant forall item | item in queue :: item.digest in answers && ParseDigest(item.digest).Success?
      invariant PlanOf(imageRoot, seen, seenBlobs, plan)
      invariant Consistent(reg) ==> Working(reg, root, queue, seen, seenBlobs, plan)
      decreases answers - seen, |queue|
    {
      var item := queue[0];
      if item.digest in seen {
        if Consistent(reg) {
          WorkingSkip(reg, root, queue, seen, seenBlobs, plan);
        }
        queue := queue[1..];
        continue;
      }
      var more, planned, allBlobs := VisitManifest(reg, imageRoot, item, seen, seenBlobs, plan);
      if planned.Failure? {
        if Consistent(reg) {
          VisitFailed(reg, root, queue, seen, seenBlobs, plan);
        }
        return Failure(planned.error);
      }
      if Consistent(reg) {
        WorkingVisit(reg, root, queue, seen, seenBlobs, plan, more, allBlobs, planned.value);
      }
      assert answers - (seen + {item.digest}) < answers - seen;
      seen, queue := seen + {item.digest}, queue[1..] + more;
      plan, seenBlobs := planned.value, allBlobs;
    }
    if Consistent(reg) {
      assert QueueDigests([]) == {};
      DoneIsPlan(reg, imageRoot, root, seen, seenBlobs, plan);
    }
    r := Success(plan);
  }

  lemma SizesGrow(reg: Registry, seen: set<string>, plan: seq<Artifact>, item: Reply, plan': seq<Artifact>)
    requires forall a | a in plan' ::
               || a in plan
               || (a.isManifest && a.digest == item.digest && a.size == item.size)
               || (!a.isManifest && Descriptor(a.digest, a.size) in BlobList(item))
    ensures SizesFrom(reg, seen, plan) && item.digest in reg && reg[item.digest] == item ==>
              SizesFrom(reg, seen + {item.digest}, plan')
  {
    hide BlobList;
    if SizesFrom(reg, seen, plan) && item.digest in reg && reg[item.digest] == item {
      forall a | a in plan' ensures Sized(reg, seen + {item.digest}, a) {
        if a in plan && !a.isManifest {
          assert Sized(reg, seen, a);
          var u :| u in seen && u in reg && Descriptor(a.digest, a.size) in BlobList(reg[u]);
          assert u in seen + {item.digest};
        } else if !a.isManifest {
          assert item.digest in seen + {item.digest};
        } else if a in plan {
          assert Sized(reg, seen, a);
        }
      }
    }
  }

  /** A manifest whose own children cannot all be fetched, or whose blobs are not all well formed. */
  ghost predicate Unplannable(reg: Registry, item: Reply) {
    || (exists c :: c in Children(item) && FetchManifest(reg, c).Failure?)
    || (exists b :: b in Blobs(item) && ParseDigest(b).Failure?)
  }

  lemma VisitFailed(reg: Registry, root: Digest, queue: seq<Reply>, seen: set<string>, seenBlobs: set<string>,
                    plan: seq<Artifact>)
    requires Working(reg, root, queue, seen, seenBlobs, plan) && queue != [] && Unplannable(reg, queue[0])
    ensures !Mirrorable(reg, root)
  {
    var item := queue[0];
    assert item.digest in QueueDigests(queue);
    assert item.digest in Reachable(reg, root) && reg[item.digest] == item;
    if b :| b in Blobs(item) && ParseDigest(b).Failure? {
      assert IsBlobOf(reg, root, b);
    }
  }

  /** One unseen manifest of planImage's loop: its own action, its unseen children and its unseen blobs. */
  method VisitManifest(reg: Registry, imageRoot: seq<string>, item: Reply, seen: set<string>, seenBlobs: set<string>,
                       plan: seq<Artifact>)
    returns (more: seq<Reply>, r: Result<seq<Artifact>>, seenBlobs': set<string>)
    requires PlanOf(imageRoot, seen, seenBlobs, plan) && item.digest !in seen && ParseDigest(item.digest).Success?
    ensures r.Failure? ==> Unplannable(reg, item)
    ensures r.Success? ==>
              && Queued(reg, Children(item), seen + {item.digest}, more)
              && seenBlobs' == seenBlobs + Blobs(item)
              && (forall b | b in Blobs(item) && b !in seenBlobs :: ParseDigest(b).Success?)
              && PlanOf(imageRoot, seen + {item.digest}, seenBlobs', r.value)
              && (SizesFrom(reg, seen, plan) && item.digest in reg && reg[item.digest] == item ==>
                    SizesFrom(reg, seen + {item.digest}, r.value))
  {
    var action := NewArtifact(imageRoot, true, item.digest, item.size);
    PlanManifest(imageRoot, seen, seenBlobs, plan, action.value);
    var withManifest := plan + [action.value];
    more, r, seenBlobs' := [], Success(withManifest), seenBlobs;
    var parsed := ParseManifestDependencies(item.kind, item.body);
    if parsed.Failure? {
      UnreadableHasNoDependencies(item);
      SizesGrow(reg, seen, plan, item, withManifest);
      return;
    }
    var fetched := EnqueueChildren(reg, parsed.value.0, seen + {item.digest});
    if fetched.Failure? {
      r := Failure(fetched.error);
      return;
    }
    more := fetched.value;
    r, seenBlobs' := PlanBlobs(imageRoot, parsed.value.1, seen + {item.digest}, seenBlobs, withManifest);
    if r.Success? {
      SizesGrow(reg, seen, plan, item, r.value);
    }
  }
}
