/** Where an image's artifacts are kept, and how validation reads a digest back from such a path. */
module ImagePaths {
  import opened Text
  import opened SafePaths
  import opened ImageMirror
  import ImageReferences

  // ---------------------------------------------------------------- the directory of an image

  predicate SlugChar(c: char) {
    'a' <= c <= 'z' || 'A' <= c <= 'Z' || '0' <= c <= '9' || c == '.' || c == '_' || c == '-'
  }

  /** Every run of other characters becomes one underscore; inRun says that such a run has already been replaced. */
  function Slug(tag: string, inRun: bool): (r: string)
    ensures forall c | c in r :: SlugChar(c)
  {
    if tag == [] then []
    else if SlugChar(tag[0]) then [tag[0]] + Slug(tag[1..], false)
    else (if inRun then [] else ['_']) + Slug(tag[1..], true)
  }

  predicate Edge(c: char) { c == '.' || c == '_' || c == '-' }

  function TrimEdgesLeft(s: string): (r: string)
    ensures r == [] || !Edge(r[0])
    ensures forall c | c in r :: c in s
  {
    if s != [] && Edge(s[0]) then TrimEdgesLeft(s[1..]) else s
  }

  function TrimEdgesRight(s: string): (r: string)
    ensures r <= s && (r == [] || !Edge(r[|r| - 1]))
  {
    if s != [] && Edge(s[|s| - 1]) then TrimEdgesRight(s[..|s| - 1]) else s
  }

  /** LocalImageID */
  function LocalImageID(registry: string, repository: string, reference: string, isDigest: bool): string {
    var tag := registry + "/" + repository + (if isDigest then "@" else ":") + reference;
    var slug := TrimEdgesRight(TrimEdgesLeft(Slug(tag, false)));
    if slug == "" then "image" else slug
  }

  /** Whatever the reference, the image's directory is a single safe path name. */
  lemma LocalImageIDIsName(registry: string, repository: string, reference: string, isDigest: bool)
    ensures Name(LocalImageID(registry, repository, reference, isDigest))
    ensures forall c | c in LocalImageID(registry, repository, reference, isDigest) :: SlugChar(c)
  {
    var tag := registry + "/" + repository + (if isDigest then "@" else ":") + reference;
    var whole := Slug(tag, false);
    var left := TrimEdgesLeft(whole);
    var slug := TrimEdgesRight(left);
    hide Slug, TrimEdgesLeft, TrimEdgesRight;
    if slug != "" {
      assert slug[0] == left[0];
      forall c | c in slug ensures c in whole && SlugChar(c) { assert c in left; }
      assert slug[0] in slug;
    }
    assert !SlugChar('/');
  }

  /** The characters of plain text that cannot stand in a directory's name. */
  predicate Separator(c: char) { c == '/' || c == ':' || c == '@' || c == '+' }

  predicate LetterOrDigit(c: char) { 'a' <= c <= 'z' || 'A' <= c <= 'Z' || '0' <= c <= '9' }

  /** Plain text without two separators in a row. */
  predicate Spaced(text: string) {
    ImageReferences.Plain(text) && forall i | 0 <= i < |text| - 1 :: !(Separator(text[i]) && Separator(text[i + 1]))
  }

  /** A reference as it is written out for its directory: plain, separators apart, a letter or digit at either end. */
  predicate Regular(text: string) {
    Spaced(text) && text != "" && LetterOrDigit(text[0]) && LetterOrDigit(text[|text| - 1])
  }

  function Label(registry: string, repository: string, reference: string, isDigest: bool): string {
    if isDigest then registry + "/" + repository + "@" + reference else registry + "/" + repository + ":" + reference
  }

  function Underscored(c: char): char { if Separator(c) then '_' else c }

  lemma {:induction false} SlugOfSpaced(text: string, inRun: bool)
    requires Spaced(text) && (inRun && text != "" ==> !Separator(text[0]))
    ensures |Slug(text, inRun)| == |text| && forall i | 0 <= i < |text| :: Slug(text, inRun)[i] == Underscored(text[i])
  {
    if text != "" {
      var rest := text[1..];
      assert text[0] in text && forall c | c in rest :: c in text;
      forall i | 0 <= i < |rest| - 1 ensures !(Separator(rest[i]) && Separator(rest[i + 1])) {
        assert rest[i] == text[i + 1] && rest[i + 1] == text[i + 2];
      }
      SlugOfSpaced(rest, Separator(text[0]));
    }
  }

  /** The directory of a regular reference is its text with an underscore for every separator. */
  lemma IDSpells(registry: string, repository: string, reference: string, isDigest: bool)
    requires Regular(Label(registry, repository, reference, isDigest))
    ensures var text, id := Label(registry, repository, reference, isDigest),
                             LocalImageID(registry, repository, reference, isDigest);
            |id| == |text| && forall i | 0 <= i < |text| :: id[i] == Underscored(text[i])
  {
    var text := Label(registry, repository, reference, isDigest);
    SlugOfSpaced(text, false);
    assert text == registry + "/" + repository + (if isDigest then "@" else ":") + reference;
    hide Slug, ImageReferences.Plain;
  }

  /** The texts differ only in separators and underscores. */
  predicate Alike(a: string, b: string) {
    |a| == |b| && forall i | 0 <= i < |a| ::
      a[i] == b[i] || ((Separator(a[i]) || a[i] == '_') && (Separator(b[i]) || b[i] == '_'))
  }

  /** Two regular references share a directory exactly when their texts are alike. */
  lemma SharedDirectory(registry1: string, repository1: string, reference1: string, isDigest1: bool, registry2: string,
                        repository2: string, reference2: string, isDigest2: bool)
    requires Regular(Label(registry1, repository1, reference1, isDigest1))
    requires Regular(Label(registry2, repository2, reference2, isDigest2))
    ensures LocalImageID(registry1, repository1, reference1, isDigest1)
         == LocalImageID(registry2, repository2, reference2, isDigest2)
       <==> Alike(Label(registry1, repository1, reference1, isDigest1),
                  Label(registry2, repository2, reference2, isDigest2))
  {
    hide *;
    IDSpells(registry1, repository1, reference1, isDigest1);
    IDSpells(registry2, repository2, reference2, isDigest2);
    UnderscoredAlike(Label(registry1, repository1, reference1, isDigest1),
                     Label(registry2, repository2, reference2, isDigest2),
                     LocalImageID(registry1, repository1, reference1, isDigest1),
                     LocalImageID(registry2, repository2, reference2, isDigest2));
  }

  lemma UnderscoredAlike(a: string, b: string, x: string, y: string)
    requires |x| == |a| && forall i | 0 <= i < |a| :: x[i] == Underscored(a[i])
    requires |y| == |b| && forall i | 0 <= i < |b| :: y[i] == Underscored(b[i])
    ensures x == y <==> Alike(a, b)
  {
    if x == y {
      forall i | 0 <= i < |a|
        ensures a[i] == b[i] || ((Separator(a[i]) || a[i] == '_') && (Separator(b[i]) || b[i] == '_'))
      {
        assert x[i] == y[i];
      }
    }
  }

  /** Two images of a registry whose repositories are a/b and a_b are kept in one directory. */
  lemma TwoInOneDirectory(registry: string, a: string, b: string, tag: string)
    requires Regular(Label(registry, a + "/" + b, tag, false)) && Regular(Label(registry, a + "_" + b, tag, false))
    ensures LocalImageID(registry, a + "/" + b, tag, false) == LocalImageID(registry, a + "_" + b, tag, false)
  {
    SharedDirectory(registry, a + "/" + b, tag, false, registry, a + "_" + b, tag, false);
    var before, after := registry + "/" + a, b + ":" + tag;
    assert Label(registry, a + "/" + b, tag, false) == before + ['/'] + after;
    assert Label(registry, a + "_" + b, tag, false) == before + ['_'] + after;
    OneCharApart(before, after);
    hide *;
  }

  lemma OneCharApart(before: string, after: string)
    ensures Alike(before + ['/'] + after, before + ['_'] + after)
  {}

  // ---------------------------------------------------------------- reading the digest back

  /** The digest three successive names spell, if the first is blobs or manifests and the others parse. */
  function DigestAt(kind: string, algoPart: string, hexPart: string): Option<string> {
    if kind != "blobs" && kind != "manifests" then None
    else
      var algo, hash := ToLower(algoPart), TrimSuffix(ToLower(hexPart), ".json");
      if algo == "" || hash == "" then None
      else if ParseDigest(algo + ":" + hash).Failure? then None
      else Some(algo + ":" + hash)
  }

  /** expectedDigestFromPath on the parts of a path: the first three names that spell a digest. */
  function ExpectedDigest(parts: seq<string>): Option<string> {
    if |parts| < 3 then None
    else
      var d := DigestAt(parts[0], parts[1], parts[2]);
      if d.Some? then d else ExpectedDigest(parts[1..])
  }

  /** The last name of an artifact's path. */
  function FileName(isManifest: bool, hex: string): string { if isManifest then hex + ".json" else hex }

  function KindName(isManifest: bool): string { if isManifest then "manifests" else "blobs" }

  /** The names of an artifact's path when its algorithm is no dot name. */
  lemma ArtifactPathNames(imageRoot: seq<string>, isManifest: bool, algo: string, hex: string)
    requires Names(imageRoot) && ValidAlgo(algo) && ValidHex(hex)
    ensures Names(ArtifactPath(imageRoot, isManifest, algo, hex)) && ArtifactPath(imageRoot, isManifest, algo, hex) != []
    ensures algo != "." && algo != ".." ==>
              ArtifactPath(imageRoot, isManifest, algo, hex)
              == imageRoot + [KindName(isManifest), algo, FileName(isManifest, hex)]
    ensures algo == "." ==>
              ArtifactPath(imageRoot, isManifest, algo, hex) == imageRoot + [KindName(isManifest), FileName(isManifest, hex)]
    ensures algo == ".." ==>
              ArtifactPath(imageRoot, isManifest, algo, hex) == imageRoot + [FileName(isManifest, hex)]
  {
    var kind, file := KindName(isManifest), FileName(isManifest, hex);
    FileNameIsName(isManifest, hex);
    KindNameIsName(isManifest);
    if algo != "." && algo != ".." { AlgoIsName(algo); }
    PathIsWalk(imageRoot, isManifest, algo, hex);
    hide ArtifactPath, KindName, FileName, Walk, ValidAlgo, ValidHex;
    WalkThree(imageRoot, kind, algo, file);
    assert (imageRoot + [kind])[..|imageRoot|] == imageRoot;
    assert imageRoot + [kind] + [algo] + [file] == imageRoot + [kind, algo, file];
    assert imageRoot + [kind] + [file] == imageRoot + [kind, file];
  }

  lemma {:induction false} PathIsWalk(imageRoot: seq<string>, isManifest: bool, algo: string, hex: string)
    ensures ArtifactPath(imageRoot, isManifest, algo, hex)
         == Walk(imageRoot, [KindName(isManifest), algo, FileName(isManifest, hex)], false)
  {
    hide Walk;
  }

  lemma KindNameIsName(isManifest: bool)
    ensures Name(KindName(isManifest))
  {}

  lemma {:induction false} WalkThree(stack: seq<string>, a: string, b: string, c: string)
    ensures Walk(stack, [a, b, c], false) == Push(Push(Push(stack, a, false), b, false), c, false)
  {
    hide Push, Walk;
    assert [a, b, c] == [a, b] + [c] && [a, b] == [a] + [b];
    WalkAppend(stack, [a, b], [c], false);
    WalkAppend(stack, [a], [b], false);
    WalkOne(stack, a, false);
    WalkOne(Push(stack, a, false), b, false);
    WalkOne(Push(Push(stack, a, false), b, false), c, false);
  }

  lemma FileNameIsName(isManifest: bool, hex: string)
    requires ValidHex(hex)
    ensures Name(FileName(isManifest, hex))
  {
    assert FileName(isManifest, hex)[0] == hex[0] && hex[0] in hex;
    forall c | c in FileName(isManifest, hex) ensures c != '/' {
      if c !in hex { assert c in ".json"; }
    }
  }

  lemma AlgoIsName(algo: string)
    requires ValidAlgo(algo) && algo != "." && algo != ".."
    ensures Name(algo)
  {}

  lemma FileGivesHex(isManifest: bool, hex: string)
    requires ValidHex(hex)
    ensures TrimSuffix(ToLower(FileName(isManifest, hex)), ".json") == hex
  {
    var file := FileName(isManifest, hex);
    forall c | c in file ensures !('A' <= c <= 'Z') {
      if c !in hex { assert c in ".json"; }
    }
    LowerFixed(file);
    if isManifest {
      assert file[|file| - 5..] == ".json" && file[..|file| - 5] == hex;
    } else {
      assert |hex| >= 5 ==> hex[|hex| - 5..][0] == hex[|hex| - 5] && hex[|hex| - 5] in hex;
    }
  }

  /** A file's own three names always spell its digest. */
  lemma OwnNames(isManifest: bool, algo: string, hex: string)
    requires ValidAlgo(algo) && ValidHex(hex)
    ensures DigestAt(KindName(isManifest), algo, FileName(isManifest, hex)) == Some(algo + ":" + hex)
  {
    DigestRoundTrip(algo, hex);
    LowerFixed(algo);
    FileGivesHex(isManifest, hex);
    hide ParseDigest, ToLower, FileName, TrimSuffix;
  }

  // ---------------------------------------------------------------- the path construction is inverted

  /** The leading names decide for everything below them as soon as they spell a digest. */
  lemma {:induction false} EarlyHitWins(prefix: seq<string>, rest: seq<string>)
    requires ExpectedDigest(prefix).Some?
    ensures ExpectedDigest(prefix + rest) == ExpectedDigest(prefix)
  {
    hide DigestAt;
    if DigestAt(prefix[0], prefix[1], prefix[2]).None? {
      EarlyHitWins(prefix[1..], rest);
      assert (prefix + rest)[1..] == prefix[1..] + rest;
    }
  }

  function LastTwo(names: seq<string>): seq<string> { if |names| < 2 then names else names[|names| - 2..] }

  /** Leading names that spell no digest leave the reading to their last two and what follows. */
  lemma {:induction false} SilentPrefix(prefix: seq<string>, rest: seq<string>)
    requires ExpectedDigest(prefix).None?
    ensures ExpectedDigest(prefix + rest) == ExpectedDigest(LastTwo(prefix) + rest)
  {
    hide DigestAt;
    if |prefix| > 2 {
      SilentPrefix(prefix[1..], rest);
      assert (prefix + rest)[1..] == prefix[1..] + rest;
      assert LastTwo(prefix[1..]) == LastTwo(prefix);
    }
  }

  /** The hash validation compares a file with, if any. */
  function ValidatedHash(parts: seq<string>): Option<string> {
    match ExpectedDigest(parts)
    case None => None
    case Some(d) => if "sha256:" <= d then Some(d[7..]) else None
  }

  lemma ShaOf(algo: string, hex: string)
    requires ':' !in algo
    ensures "sha256:" <= algo + ":" + hex <==> algo == "sha256"
    ensures ("sha256:" + hex)[7..] == hex
  {
    var d := algo + ":" + hex;
    if "sha256:" <= d {
      CutAtFirst(algo, ':', hex);
      var rest := d[7..];
      assert d == "sha256" + ":" + rest;
      CutAtFirst("sha256", ':', rest);
    }
  }

  predicate NoSha(d: Option<string>) { d.Some? ==> !("sha256:" <= d.value) }

  /** Names that follow a kind name with a kind name never spell a sha256 digest. */
  lemma KindIsNoSha(imageID: string, isManifest: bool, next: string)
    ensures NoSha(DigestAt(imageID, KindName(isManifest), next))
  {
    var kind := KindName(isManifest);
    LowerFixed(kind);
    hide ParseDigest, ToLower, TrimSuffix;
    ShaOf(kind, TrimSuffix(ToLower(next), ".json"));
  }

  lemma ShaIsNoHex(imageID: string, isManifest: bool)
    ensures DigestAt(imageID, KindName(isManifest), "sha256").None?
  {
    var kind := KindName(isManifest);
    LowerFixed(kind);
    LowerFixed("sha256");
    ShaIsNoDigest(kind);
    hide ToLower, ParseDigest;
    assert TrimSuffix("sha256", ".json") == "sha256";
  }

  lemma ShaIsNoDigest(kind: string)
    requires kind == "blobs" || kind == "manifests"
    ensures ParseDigest(kind + ":" + "sha256").Failure?
  {
    TrimNoSpace(kind + ":" + "sha256");
    TrimNoSpace(kind);
    TrimNoSpace("sha256");
    CutAtFirst(kind, ':', "sha256");
    LowerFixed("sha256");
    assert !HexChar("sha256"[0]) && "sha256"[0] in "sha256";
    hide ToLower, TrimSpace, Cut;
  }

  /** A kind name is never the hex part of a digest, whatever comes before it. */
  lemma KindIsNoHex(first: string, algoPart: string, isManifest: bool)
    ensures DigestAt(first, algoPart, KindName(isManifest)).None?
  {
    var kind := KindName(isManifest);
    LowerFixed(kind);
    var d := ToLower(algoPart) + ":" + kind;
    assert d[|d| - 1] == 's';
    EndsInNoHex(d);
    hide ParseDigest, ToLower;
    assert TrimSuffix(kind, ".json") == kind;
  }

  lemma EndsInNoHex(d: string)
    requires d != [] && !IsSpace(d[|d| - 1]) && !HexChar(LowerChar(d[|d| - 1]))
    ensures ParseDigest(d).Failure?
  {
    KeepsEnd(d);
    var t := TrimSpace(d);
    CutSound(t, ':');
    hide TrimSpace, Cut;
    if Cut(t, ':').Some? {
      var (a, b) := Cut(t, ':').value;
      if b != [] {
        assert b[|b| - 1] == t[|t| - 1];
        KeepsEnd(b);
        var hex := ToLower(TrimSpace(b));
        assert !HexChar(hex[|hex| - 1]) && hex[|hex| - 1] in hex;
      } else {
        assert b == "";
        TrimNoSpace(b);
      }
    }
  }

  /** Trimming keeps a last character that is no space. */
  lemma {:induction false} KeepsEnd(s: string)
    requires s != [] && !IsSpace(s[|s| - 1])
    ensures TrimSpace(s) != [] && TrimSpace(s)[|TrimSpace(s)| - 1] == s[|s| - 1]
  {
    if IsSpace(s[0]) {
      KeepsEnd(s[1..]);
    }
  }

  lemma NoColon(algo: string)
    requires ValidAlgo(algo)
    ensures ':' !in algo
  {
    assert !AlgoChar(':');
  }

  lemma ArtifactFields(imageRoot: seq<string>, isManifest: bool, digest: string, size: int, a: Artifact)
    requires NewArtifact(imageRoot, isManifest, digest, size) == Success(a)
    ensures ParseDigest(digest).Success?
    ensures var (algo, hex) := ParseDigest(digest).value;
            && ValidAlgo(algo) && ValidHex(hex)
            && a.path == ArtifactPath(imageRoot, isManifest, algo, hex)
            && a.checksum == if algo == "sha256" then hex else ""
  {
    hide ParseDigest, ArtifactPath;
  }

  lemma ShaIsAlgo()
    ensures ValidAlgo("sha256")
  {}

  predicate IsKind(name: string) { name == "blobs" || name == "manifests" }

  /**
   * The image's directory closes a kind of artifact and a sha256: below it a file of the algorithm "..", which lands in
   * the image's directory itself, is read as a sha256 digest.
   */
  predicate KindThenSha(segs: seq<string>, imageID: string) {
    segs != [] && IsKind(segs[|segs| - 1]) && ToLower(imageID) == "sha256"
  }

  /** What validation should read from an artifact's path. */
  function Checksum(a: Artifact): Option<string> { if a.checksum == "" then None else Some(a.checksum) }

  lemma {:induction false} ReadThree(a: string, b: string, c: string, rest: seq<string>)
    ensures ExpectedDigest([a, b, c] + rest)
         == if DigestAt(a, b, c).Some? then DigestAt(a, b, c) else ExpectedDigest([b, c] + rest)
  {
    hide DigestAt;
    assert ([a, b, c] + rest)[1..] == [b, c] + rest;
  }

  /** The names around an image's directory that could still be misread: the directory above it, if there is one. */
  lemma {:induction false} AroundImage(segs: seq<string>, imageID: string, rest: seq<string>)
    requires ExpectedDigest(segs + [imageID]).None? && rest != []
    ensures ExpectedDigest(segs + [imageID] + rest)
         == if segs != [] && DigestAt(segs[|segs| - 1], imageID, rest[0]).Some?
            then DigestAt(segs[|segs| - 1], imageID, rest[0])
            else ExpectedDigest([imageID] + rest)
  {
    var prefix := segs + [imageID];
    hide DigestAt, ExpectedDigest;
    SilentPrefix(prefix, rest);
    if segs == [] {
      assert prefix == [imageID];
    } else {
      var above := segs[|segs| - 1];
      assert LastTwo(prefix) == [above, imageID];
      assert rest == [rest[0]] + rest[1..];
      assert [above, imageID] + rest == [above, imageID, rest[0]] + rest[1..];
      ReadThree(above, imageID, rest[0], rest[1..]);
      assert [imageID, rest[0]] + rest[1..] == [imageID] + rest;
    }
  }

  lemma {:induction false} ShortIsSilent(names: seq<string>)
    requires |names| < 3
    ensures ExpectedDigest(names).None?
  {}

  lemma {:induction false} HashOfDigest(parts: seq<string>, algo: string, hex: string)
    requires ExpectedDigest(parts) == Some(algo + ":" + hex) && ':' !in algo
    ensures ValidatedHash(parts) == if algo == "sha256" then Some(hex) else None
  {
    ShaOf(algo, hex);
    hide ExpectedDigest;
    assert "sha256:" + hex == "sha256" + ":" + hex;
  }

  lemma {:induction false} NoShaHash(parts: seq<string>)
    requires NoSha(ExpectedDigest(parts))
    ensures ValidatedHash(parts) == None
  {
    hide ExpectedDigest;
  }

  /** The reading of a path that ends in a kind, an algorithm and a file. */
  lemma {:induction false} ReadFull(segs: seq<string>, imageID: string, isManifest: bool, algo: string, hex: string)
    requires ExpectedDigest(segs + [imageID]).None? && ValidAlgo(algo) && ValidHex(hex)
    ensures ValidatedHash(segs + [imageID] + [KindName(isManifest), algo, FileName(isManifest, hex)])
         == if algo == "sha256" then Some(hex) else None
  {
    hide DigestAt, KindName, FileName, ValidAlgo, ValidHex, ExpectedDigest, ValidatedHash, NoSha;
    var kind, file := KindName(isManifest), FileName(isManifest, hex);
    var path := segs + [imageID] + [kind, algo, file];
    OwnNames(isManifest, algo, hex);
    ShaIsNoHex(imageID, isManifest);
    KindIsNoSha(imageID, isManifest, algo);
    NoColon(algo);
    if segs != [] { KindIsNoHex(segs[|segs| - 1], imageID, isManifest); }
    AroundImage(segs, imageID, [kind, algo, file]);
    assert [imageID] + [kind, algo, file] == [imageID, kind, algo] + [file];
    ReadThree(imageID, kind, algo, [file]);
    assert [kind, algo] + [file] == [kind, algo, file] + [];
    ReadThree(kind, algo, file, []);
    if DigestAt(imageID, kind, algo).None? {
      HashOfDigest(path, algo, hex);
    } else {
      NoShaHash(path);
    }
  }

  /** The reading of a path whose algorithm "." has dropped out. */
  lemma {:induction false} ReadDot(segs: seq<string>, imageID: string, isManifest: bool, hex: string)
    requires ExpectedDigest(segs + [imageID]).None?
    ensures ValidatedHash(segs + [imageID] + [KindName(isManifest), FileName(isManifest, hex)]) == None
  {
    var kind, file := KindName(isManifest), FileName(isManifest, hex);
    KindIsNoSha(imageID, isManifest, file);
    if segs != [] { KindIsNoHex(segs[|segs| - 1], imageID, isManifest); }
    hide DigestAt, KindName, FileName, ExpectedDigest;
    AroundImage(segs, imageID, [kind, file]);
    assert [imageID] + [kind, file] == [imageID, kind, file] + [];
    ReadThree(imageID, kind, file, []);
    assert [kind, file] + [] == [kind, file];
    ShortIsSilent([kind, file]);
  }

  /** The reading of a path whose algorithm ".." has taken the kind away. */
  lemma {:induction false} ReadDotDot(segs: seq<string>, imageID: string, isManifest: bool, hex: string)
    requires ExpectedDigest(segs + [imageID]).None? && ValidHex(hex)
    ensures ValidatedHash(segs + [imageID] + [FileName(isManifest, hex)])
         == if KindThenSha(segs, imageID) then Some(hex) else None
  {
    var file := FileName(isManifest, hex);
    if segs != [] { FileBelow(segs[|segs| - 1], imageID, isManifest, hex); }
    hide DigestAt, FileName, ExpectedDigest, ToLower, ValidHex;
    ShaOf("sha256", hex);
    AroundImage(segs, imageID, [file]);
    ShortIsSilent([imageID] + [file]);
  }

  /** A file right below the image's directory is read as a sha256 digest in one case only. */
  lemma FileBelow(above: string, imageID: string, isManifest: bool, hex: string)
    requires ValidHex(hex)
    ensures IsKind(above) && ToLower(imageID) == "sha256" ==>
              DigestAt(above, imageID, FileName(isManifest, hex)) == Some("sha256:" + hex)
    ensures !(IsKind(above) && ToLower(imageID) == "sha256") ==>
              NoSha(DigestAt(above, imageID, FileName(isManifest, hex)))
  {
    var algo := ToLower(imageID);
    FileGivesHex(isManifest, hex);
    if IsKind(above) && algo == "sha256" {
      ShaIsAlgo();
      DigestRoundTrip("sha256", hex);
      assert "sha256:" + hex == "sha256" + ":" + hex;
    } else if IsKind(above) && ShaParses(algo, hex) {
      ShaParsesOnlySha(algo, hex);
    }
  }

  predicate ShaParses(algo: string, hex: string) {
    "sha256:" <= algo + ":" + hex && ParseDigest(algo + ":" + hex).Success?
  }

  lemma ShaParsesOnlySha(algo: string, hex: string)
    requires ShaParses(algo, hex) && ValidHex(hex)
    ensures algo == "sha256"
  {
    var d := algo + ":" + hex;
    var sha := "sha256:";
    assert forall i | 0 <= i < 6 :: sha[i] == d[i] && sha[i] != ':';
    ColonAfter(algo, hex);
    if |algo| > 6 {
      LongAlgoFails(algo, hex);
    } else {
      assert d[..6] == algo;
    }
  }

  lemma ColonAfter(algo: string, hex: string)
    ensures (algo + ":" + hex)[|algo|] == ':'
  {}

  lemma LongAlgoFails(algo: string, hex: string)
    requires "sha256:" <= algo + ":" + hex && ValidHex(hex) && |algo| > 6
    ensures ParseDigest(algo + ":" + hex).Failure?
  {
    var d := algo + ":" + hex;
    var rest := d[7..];
    assert d == "sha256" + ":" + rest && rest == algo[7..] + ":" + hex && ':' in rest;
    assert d[|d| - 1] == hex[|hex| - 1] && hex[|hex| - 1] in hex;
    TrimNoSpace(d);
    CutAtFirst("sha256", ':', rest);
    TrimKeeps(rest, ':');
    LowerKeeps(TrimSpace(rest), ':');
    hide TrimSpace, ToLower, Cut;
    assert !HexChar(':');
  }

  lemma {:induction false} TrimKeeps(s: string, c: char)
    requires c in s && !IsSpace(c)
    ensures c in TrimSpace(s)
  {
    if IsSpace(s[0]) {
      TrimKeeps(s[1..], c);
    } else {
      RightKeeps(s, c);
    }
  }

  lemma {:induction false} RightKeeps(s: string, c: char)
    requires c in s && !IsSpace(c)
    ensures c in TrimRight(s)
  {
    if IsSpace(s[|s| - 1]) {
      RightKeeps(s[..|s| - 1], c);
    }
  }

  lemma LowerKeeps(s: string, c: char)
    requires c in s && !('A' <= c <= 'Z')
    ensures c in ToLower(s)
  {
    var i :| 0 <= i < |s| && s[i] == c;
    assert ToLower(s)[i] == c;
  }

  /** What validation reads from an artifact's path, for every output directory, image directory and digest. */
  ghost function Reading(segs: seq<string>, imageID: string, a: Artifact): Option<string>
    requires ParseDigest(a.digest).Success?
  {
    var (algo, hex) := ParseDigest(a.digest).value;
    if ExpectedDigest(segs + [imageID]).Some? then ValidatedHash(segs + [imageID])
    else if algo == ".." && KindThenSha(segs, imageID) then Some(hex)
    else Checksum(a)
  }

  lemma PathReading(segs: seq<string>, imageID: string, isManifest: bool, digest: string, size: int, a: Artifact)
    requires Names(segs) && Name(imageID)
    requires NewArtifact(segs + [imageID], isManifest, digest, size) == Success(a)
    ensures ValidatedHash(a.path) == Reading(segs, imageID, a)
  {
    var (algo, hex) := ParseDigest(digest).value;
    var imageRoot := segs + [imageID];
    ArtifactPathNames(imageRoot, isManifest, algo, hex);
    ArtifactFields(imageRoot, isManifest, digest, size, a);
    hide NewArtifact, ParseDigest, DigestAt, ArtifactPath, ValidAlgo, ValidHex, ExpectedDigest, KindName, FileName;
    if ExpectedDigest(imageRoot).Some? {
      assert imageRoot <= a.path;
      EarlyHitWins(imageRoot, a.path[|imageRoot|..]);
      assert a.path == imageRoot + a.path[|imageRoot|..];
    } else if algo == "." {
      ReadDot(segs, imageID, isManifest, hex);
    } else if algo == ".." {
      ReadDotDot(segs, imageID, isManifest, hex);
    } else {
      ReadFull(segs, imageID, isManifest, algo, hex);
    }
  }

  /** The names above an artifact leave its own digest to be read. */
  predicate ReadsOwn(segs: seq<string>, imageID: string, a: Artifact) {
    if ExpectedDigest(segs + [imageID]).Some? then ValidatedHash(segs + [imageID]) == Checksum(a)
    else !(KindThenSha(segs, imageID) && ParseDigest(a.digest).Success? && ParseDigest(a.digest).value.0 == "..")
  }

  /**
   * Validation reads back from an artifact's path exactly the checksum the plan gave it, that is the hash of a sha256
   * digest and nothing for any other algorithm, if and only if the output directory and the image's directory spell no
   * digest, or the first one they spell gives that same checksum. A file of the algorithm ".." adds one case of its
   * own.
   */
  lemma PathGivesChecksum(segs: seq<string>, imageID: string, isManifest: bool, digest: string, size: int, a: Artifact)
    requires Names(segs) && Name(imageID)
    requires NewArtifact(segs + [imageID], isManifest, digest, size) == Success(a)
    ensures ValidatedHash(a.path) == Checksum(a) <==> ReadsOwn(segs, imageID, a)
  {
    PathReading(segs, imageID, isManifest, digest, size, a);
    ArtifactFields(segs + [imageID], isManifest, digest, size, a);
    hide NewArtifact, ParseDigest, ExpectedDigest, ValidatedHash, ArtifactPath;
  }

  /** No name of the output directory looks like a kind of artifact. */
  predicate PlainNames(segs: seq<string>) { forall s | s in segs :: !IsKind(s) }

  /** Plain output directories are safe for every image and digest. */
  lemma {:induction false} PlainReadsOwn(segs: seq<string>, imageID: string, a: Artifact)
    requires PlainNames(segs)
    ensures ExpectedDigest(segs + [imageID]).None? && ReadsOwn(segs, imageID, a)
  {
    hide ParseDigest;
    var parts := segs + [imageID];
    if |parts| >= 3 {
      assert parts[0] == segs[0] && segs[0] in segs;
      assert DigestAt(parts[0], parts[1], parts[2]).None?;
      assert parts[1..] == segs[1..] + [imageID];
      PlainReadsOwn(segs[1..], imageID, a);
    }
    if segs != [] { assert segs[|segs| - 1] in segs; }
  }

  /** An output directory that spells a digest itself. */
  lemma {:induction false} OutputDirReadAsDigest(hex: string, dir: seq<string>)
    requires ValidHex(hex) && dir == ["blobs", "sha256", hex]
    ensures Names(dir) && ExpectedDigest(dir).Some?
    ensures "sha256:" <= ExpectedDigest(dir).value && ExpectedDigest(dir).value[7..] == hex
  {
    ShaDirIsNames(hex);
    ShaDirDigest(hex);
    ShaOf("sha256", hex);
    hide *;
  }

  lemma ShaDirIsNames(hex: string)
    requires ValidHex(hex)
    ensures Names(["blobs", "sha256", hex]) && "sha256:" + hex == "sha256" + ":" + hex && ':' !in "sha256"
  {
    FileNameIsName(false, hex);
    hide ValidHex;
  }

  lemma ShaDirDigest(hex: string)
    requires ValidHex(hex)
    ensures ExpectedDigest(["blobs", "sha256", hex]) == Some("sha256" + ":" + hex)
  {
    ShaIsAlgo();
    OwnNames(false, "sha256", hex);
    hide DigestAt, ValidHex, ValidAlgo;
  }
}
