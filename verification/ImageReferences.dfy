/** ParseReference: image references, their Docker Hub defaults and their printed normal form. */
module ImageReferences {
  import opened Text
  import opened SafePaths

  datatype ImageReference = ImageReference(scheme: string, registry: string, endpointHost: string, repository: string,
                                           reference: string, isDigest: bool)

  // ---------------------------------------------------------------- strings

  /** The text before and after the last occurrence of sep, if there is one. */
  function LastCut(s: string, sep: char): Option<(string, string)> {
    if s == [] then None
    else if s[|s| - 1] == sep then Some((s[..|s| - 1], []))
    else match LastCut(s[..|s| - 1], sep)
      case None => None
      case Some(parts) => Some((parts.0, parts.1 + [s[|s| - 1]]))
  }

  lemma {:induction false} LastCutSound(s: string, sep: char)
    ensures LastCut(s, sep).None? <==> sep !in s
    ensures LastCut(s, sep).Some? ==>
              var (a, b) := LastCut(s, sep).value; sep !in b && s == a + [sep] + b
  {
    if s != [] && s[|s| - 1] != sep {
      LastCutSound(s[..|s| - 1], sep);
      assert s == s[..|s| - 1] + [s[|s| - 1]];
    }
  }

  lemma {:induction false} LastCutAtLast(a: string, sep: char, b: string)
    requires sep !in b
    ensures LastCut(a + [sep] + b, sep) == Some((a, b))
  {
    var s := a + [sep] + b;
    if b == [] {
      assert s == a + [sep];
      assert s[..|s| - 1] == a;
    } else {
      assert s[..|s| - 1] == a + [sep] + b[..|b| - 1];
      LastCutAtLast(a, sep, b[..|b| - 1]);
      assert b[..|b| - 1] + [b[|b| - 1]] == b;
    }
  }

  /** The characters over which the round trip is stated: no white space, and nothing a URL escapes or cuts at. */
  predicate PlainChar(c: char) {
    'a' <= c <= 'z' || 'A' <= c <= 'Z' || '0' <= c <= '9' || c in "._-+/:@"
  }

  predicate Plain(s: string) { forall c | c in s :: PlainChar(c) }

  // ---------------------------------------------------------------- the URL part

  predicate Letter(c: char) { 'a' <= c <= 'z' || 'A' <= c <= 'Z' }

  predicate SchemeChar(c: char) { Letter(c) || '0' <= c <= '9' || c == '+' || c == '-' || c == '.' }

  /** What url.Parse takes for the scheme: the text before the first colon, if it is one. */
  function SchemeOf(s: string): Option<(string, string)> {
    match Cut(s, ':')
    case None => None
    case Some((scheme, rest)) =>
      if scheme != "" && Letter(scheme[0]) && forall c | c in scheme :: SchemeChar(c) then Some((scheme, rest)) else None
  }

  /** An absent port, or one of digits only (RFC 3986, section 3.2.3). */
  predicate ValidPort(host: string) {
    match LastCut(host, ':')
    case None => true
    case Some((_, port)) => forall c | c in port :: '0' <= c <= '9'
  }

  /** A host a printed reference can be parsed with: without user information and with a valid port. */
  predicate ValidHost(host: string) { '@' !in host && ValidPort(host) }

  /** url.Parse on plain text, keeping what ParseReference accepts: scheme, host and path. */
  function ParseUrl(s: string): Option<(string, string, string)> {
    match SchemeOf(s)
    case None => None
    case Some((scheme, rest)) =>
      if !("//" <= rest) then None
      else
        var (authority, path) := match Cut(rest[2..], '/')
                                 case None => (rest[2..], "")
                                 case Some((a, p)) => (a, "/" + p);
        if ValidHost(authority) then Some((ToLower(scheme), authority, path)) else None
  }

  function TrimSlash(path: string): string { if path != "" && path[0] == '/' then path[1..] else path }

  /** Scheme and address of a trimmed reference. */
  function AddressOf(s: string): Result<(string, string)> {
    if !Contains(s, "://") then Success(("docker", s))
    else match ParseUrl(s)
      case None => Failure("invalid URL")
      case Some((scheme, host, path)) =>
        if scheme != "docker" && scheme != "oci" then Failure("unsupported scheme")
        else if host == "" then Failure("registry host is required")
        else Success((scheme, host + "/" + TrimSlash(path)))
  }

  // ---------------------------------------------------------------- registry, repository and reference

  predicate LooksLikeRegistry(host: string) { '.' in host || ':' in host || host == "localhost" }

  /** The first name of the address and what follows it; without a scheme the first name may be missing. */
  function SplitHost(address: string, hasScheme: bool): Result<(string, string)> {
    match Cut(address, '/')
    case None => if hasScheme then Failure("repository path is required") else Success(("docker.io", address))
    case Some((host, rest)) =>
      if host != "" then Success((host, rest))
      else if hasScheme then Failure("repository path is required")
      else Success(("docker.io", address))
  }

  /** Repository, reference and whether it is a digest. */
  function SplitReference(repoAndRef: string): (string, string, bool) {
    match LastCut(repoAndRef, '@')
    case Some((repository, reference)) => (repository, reference, true)
    case None =>
      match LastCut(repoAndRef, ':')
      case Some((repository, reference)) =>
        if '/' !in reference then (repository, reference, false) else (repoAndRef, "latest", false)
      case None => (repoAndRef, "latest", false)
  }

  predicate ValidRepository(repository: string) {
    && repository != "" && !Contains(repository, "//")
    && forall part | part in Parts(repository) :: part != "" && part != "." && part != ".."
  }

  predicate Hub(host: string) { host == "docker.io" || host == "index.docker.io" }

  function Endpoint(registry: string): string { if Hub(registry) then "registry-1.docker.io" else registry }

  /** The second half of ParseReference, from a host and the rest of the address on. */
  function Finish(scheme: string, host: string, repoAndRef: string): Result<ImageReference> {
    var (repository, reference, isDigest) := SplitReference(repoAndRef);
    if !ValidRepository(repository) then Failure("repository path is invalid")
    else if reference == "" then Failure("reference is required")
    else if isDigest && ParseDigest(reference).Failure? then Failure("invalid digest reference")
    else
      var registry := if Hub(host) then "docker.io" else host;
      Success(ImageReference(scheme, registry, Endpoint(registry),
                             if Hub(host) && '/' !in repository then "library/" + repository else repository,
                             reference, isDigest))
  }

  function Resolve(scheme: string, hasScheme: bool, first: string, rest: string): Result<ImageReference> {
    var host, repoAndRef := ToLower(TrimSpace(first)), TrimSpace(rest);
    if host == "" then Failure("registry host is required")
    else if repoAndRef == "" then Failure("repository path is required")
    else if !hasScheme && !LooksLikeRegistry(host) then Finish(scheme, "docker.io", host + "/" + repoAndRef)
    else Finish(scheme, host, repoAndRef)
  }

  /** ParseReference */
  function ParseReference(raw: string): Result<ImageReference> {
    var s := TrimSpace(raw);
    if s == "" then Failure("reference is empty")
    else match AddressOf(s)
      case Failure(e) => Failure(e)
      case Success((scheme, address)) =>
        match SplitHost(address, Contains(s, "://"))
        case Failure(e) => Failure(e)
        case Success((first, rest)) => Resolve(scheme, Contains(s, "://"), first, rest)
  }

  /** The normal form of a reference. */
  function Tail(r: ImageReference): string { r.repository + (if r.isDigest then "@" else ":") + r.reference }

  function Printed(r: ImageReference): string { "docker://" + r.registry + "/" + Tail(r) }

  /** ParseReference as the source runs it, reassigning address, host, repository and reference as it goes. */
  method Parse(raw: string) returns (r: Result<ImageReference>)
    ensures r == ParseReference(raw)
  {
    hide TrimSpace, ToLower, Cut, Contains, ParseUrl, Parts, ParseDigest;
    var s := TrimSpace(raw);
    if s == "" {
      return Failure("reference is empty");
    }
    var hasScheme := Contains(s, "://");
    var scheme, address := "docker", s;
    if hasScheme {
      var u := ParseUrl(s);
      if u.None? {
        return Failure("invalid URL");
      }
      scheme := u.value.0;
      if scheme != "docker" && scheme != "oci" {
        return Failure("unsupported scheme");
      }
      if u.value.1 == "" {
        return Failure("registry host is required");
      }
      address := u.value.1 + "/" + TrimSlash(u.value.2);
    }
    var first, rest := "docker.io", address;
    var cut := Cut(address, '/');
    if cut.Some? && cut.value.0 != "" {
      first, rest := cut.value.0, cut.value.1;
    } else if hasScheme {
      return Failure("repository path is required");
    }
    var host, repoAndRef := ToLower(TrimSpace(first)), TrimSpace(rest);
    if host == "" {
      return Failure("registry host is required");
    }
    if repoAndRef == "" {
      return Failure("repository path is required");
    }
    if !hasScheme && !LooksLikeRegistry(host) {
      repoAndRef := host + "/" + repoAndRef;
      host := "docker.io";
    }
    var repository, reference, isDigest := repoAndRef, "latest", false;
    var at, colon := LastCut(repoAndRef, '@'), LastCut(repoAndRef, ':');
    if at.Some? {
      repository, reference, isDigest := at.value.0, at.value.1, true;
    } else if colon.Some? && '/' !in colon.value.1 {
      repository, reference := colon.value.0, colon.value.1;
    }
    if !ValidRepository(repository) {
      return Failure("repository path is invalid");
    }
    if reference == "" {
      return Failure("reference is required");
    }
    if isDigest && ParseDigest(reference).Failure? {
      return Failure("invalid digest reference");
    }
    if Hub(host) {
      if '/' !in repository {
        repository := "library/" + repository;
      }
      host := "docker.io";
    }
    var endpointHost := host;
    if Hub(endpointHost) {
      endpointHost := "registry-1.docker.io";
    }
    return Success(ImageReference(scheme, host, endpointHost, repository, reference, isDigest));
  }

  // ---------------------------------------------------------------- the second half is stable

  lemma TailSplits(r: ImageReference)
    requires if r.isDigest then '@' !in r.reference
             else '@' !in r.repository && '@' !in r.reference && ':' !in r.reference && '/' !in r.reference
    ensures SplitReference(Tail(r)) == (r.repository, r.reference, r.isDigest)
  {
    if r.isDigest {
      LastCutAtLast(r.repository, '@', r.reference);
    } else {
      LastCutSound(Tail(r), '@');
      LastCutAtLast(r.repository, ':', r.reference);
    }
  }

  lemma SplitSound(x: string)
    ensures var (repository, reference, isDigest) := SplitReference(x);
            && (isDigest ==> '@' !in reference)
            && (!isDigest ==> '@' !in repository && '@' !in reference && ':' !in reference && '/' !in reference)
  {
    LastCutSound(x, '@');
    LastCutSound(x, ':');
    if LastCut(x, '@').None? && LastCut(x, ':').Some? {
      var (a, b) := LastCut(x, ':').value;
      assert forall c | c in a || c in b :: c in x;
    }
  }

  lemma LibraryValid(repository: string)
    requires ValidRepository(repository) && '/' !in repository
    ensures ValidRepository("library/" + repository)
  {
    PartsOfJoinedPair("library", repository);
    assert "library" + "/" + repository == "library/" + repository;
    PartsOfName("library");
    PartsOfName(repository);
    forall i: nat ensures !OccursAt("library/" + repository, "//", i) { NoDoubleSlash(repository, i); }
    hide Parts, OccursAt;
  }

  lemma NoDoubleSlash(repository: string, i: nat)
    requires '/' !in repository
    ensures !OccursAt("library/" + repository, "//", i)
  {
    var whole := "library/" + repository;
    if i + 2 <= |whole| {
      assert whole[i..i + 2][0] == whole[i] && whole[i..i + 2][1] == whole[i + 1];
      if i >= 7 {
        assert whole[i + 1] == repository[i - 7] && repository[i - 7] in repository;
      }
    }
  }

  /** Finishing the printed tail under the resolved registry gives the same reference. */
  lemma FinishAgain(scheme: string, host: string, x: string, r: ImageReference)
    requires Finish(scheme, host, x) == Success(r)
    ensures Finish("docker", r.registry, Tail(r)) == Success(r.(scheme := "docker"))
  {
    SplitSound(x);
    var (repository, reference, isDigest) := SplitReference(x);
    assert '@' !in "library/";
    assert '@' !in r.repository || r.isDigest;
    if Hub(host) && '/' !in repository {
      LibraryValid(repository);
      assert "library/"[7] == '/' && ("library/" + repository)[7] == '/';
    }
    TailSplits(r);
    hide SplitReference, ValidRepository, Tail, ParseDigest;
  }

  // ---------------------------------------------------------------- plain text

  lemma PlainTrim(s: string)
    requires Plain(s)
    ensures TrimSpace(s) == s
  {
    if s != "" {
      assert s[0] in s && s[|s| - 1] in s;
      TrimNoSpace(s);
    }
  }

  /** Lower-casing keeps text plain, its slashes and its being a valid host, and needs to be done only once. */
  lemma PlainLower(s: string)
    requires Plain(s)
    ensures Plain(ToLower(s)) && ToLower(ToLower(s)) == ToLower(s)
  {
    var t := ToLower(s);
    forall c | c in t ensures PlainChar(c) && !('A' <= c <= 'Z') {
      var i :| 0 <= i < |t| && t[i] == c;
      assert s[i] in s && t[i] == LowerChar(s[i]);
    }
    LowerFixed(t);
  }

  /** Lower-casing adds no separator. */
  lemma LowerAddsNo(s: string, sep: char)
    requires sep !in s && !('a' <= sep <= 'z')
    ensures sep !in ToLower(s)
  {
    forall i | 0 <= i < |s| ensures ToLower(s)[i] != sep { assert s[i] in s; }
  }

  lemma LowerConcat(a: string, b: string)
    ensures ToLower(a + b) == ToLower(a) + ToLower(b)
  {
    var whole, parts := ToLower(a + b), ToLower(a) + ToLower(b);
    assert |whole| == |parts|;
    forall i | 0 <= i < |whole| ensures whole[i] == parts[i] {}
  }

  lemma LowerValidHost(host: string)
    requires Plain(host) && ValidHost(host)
    ensures ValidHost(ToLower(host))
  {
    LowerAddsNo(host, '@');
    LastCutSound(host, ':');
    if LastCut(host, ':').Some? {
      var (a, port) := LastCut(host, ':').value;
      LowerConcat(a, [':'] + port);
      LowerConcat([':'], port);
      LowerFixed(port);
      assert ToLower([':']) == [':'];
      assert a + [':'] + port == a + ([':'] + port);
      assert ToLower(a) + [':'] + port == ToLower(a) + ([':'] + port);
      LastCutAtLast(ToLower(a), ':', port);
    } else {
      LowerAddsNo(host, ':');
      LastCutSound(ToLower(host), ':');
    }
  }

  // ---------------------------------------------------------------- the first half

  lemma {:induction false} PlainCut(s: string, sep: char)
    requires Plain(s) && Cut(s, sep).Some?
    ensures var (a, b) := Cut(s, sep).value; Plain(a) && Plain(b) && sep !in a && s == a + [sep] + b
  {
    CutSound(s, sep);
    var (a, b) := Cut(s, sep).value;
    assert forall c | c in a || c in b :: c in s;
  }

  lemma PlainConcat(a: string, b: string)
    requires Plain(a) && Plain(b)
    ensures Plain(a + b)
  {}

  lemma UrlPlain(s: string)
    requires Plain(s) && ParseUrl(s).Some?
    ensures var (_, host, path) := ParseUrl(s).value;
            Plain(host) && Plain(path) && ValidHost(host) && '/' !in host
  {
    PlainCut(s, ':');
    var (scheme, rest) := SchemeOf(s).value;
    assert Plain(rest[2..]);
    CutSound(rest[2..], '/');
    if Cut(rest[2..], '/').Some? { PlainCut(rest[2..], '/'); }
    hide ValidHost, ToLower, Cut;
  }

  /** What comes out of the first half over plain text. */
  ghost predicate Located(s: string, first: string, rest: string) {
    && Plain(first) && Plain(rest) && '/' !in first
    && (Contains(s, "://") ==> ValidHost(first))
  }

  lemma AddressLocated(s: string, scheme: string, address: string, first: string, rest: string)
    requires Plain(s) && AddressOf(s) == Success((scheme, address))
    requires SplitHost(address, Contains(s, "://")) == Success((first, rest))
    ensures Located(s, first, rest)
  {
    hide ParseUrl, SchemeOf, ValidHost, ToLower, Cut, Plain;
    HubPlain();
    if Contains(s, "://") {
      UrlPlain(s);
      var (_, host, path) := ParseUrl(s).value;
      CutAtFirst(host, '/', TrimSlash(path));
      assert host + "/" + TrimSlash(path) == host + ['/'] + TrimSlash(path);
      TrimSlashPlain(path);
    } else if Cut(address, '/').Some? {
      PlainCut(address, '/');
    }
  }

  lemma TrimSlashPlain(path: string)
    requires Plain(path)
    ensures Plain(TrimSlash(path))
  {}

  lemma HubPlain()
    ensures Plain("docker.io") && '/' !in "docker.io" && ToLower("docker.io") == "docker.io" && ValidHost("docker.io")
    ensures Plain("library/") && Plain("latest")
  {
    hide Plain;
    HubText();
    LowerFixed("docker.io");
    LastCutSound("docker.io", ':');
    hide ToLower, LastCut;
  }

  lemma HubText()
    ensures Plain("docker.io") && '/' !in "docker.io" && '@' !in "docker.io" && ':' !in "docker.io"
    ensures forall c | c in "docker.io" :: !('A' <= c <= 'Z')
    ensures Plain("library/") && Plain("latest")
  {}

  /** What a successful parse of plain text looks like. */
  ghost predicate Normal(r: ImageReference) {
    && r.registry != "" && '/' !in r.registry && ToLower(r.registry) == r.registry
    && Plain(r.registry) && Plain(Tail(r)) && Tail(r) != ""
  }

  lemma FinishPlain(scheme: string, host: string, x: string, r: ImageReference)
    requires Plain(host) && Plain(x) && '/' !in host && host != "" && ToLower(host) == host
    requires Finish(scheme, host, x) == Success(r)
    ensures Normal(r) && (ValidHost(host) ==> ValidHost(r.registry))
  {
    HubPlain();
    SplitPlain(x);
    var (repository, reference, isDigest) := SplitReference(x);
    PlainConcat("library/", repository);
    hide ParseDigest, ValidHost, ToLower, SplitReference, ValidRepository;
    assert Plain(r.repository) && Plain(r.reference) && Plain("@") && Plain(":");
  }

  lemma SplitPlain(x: string)
    requires Plain(x)
    ensures Plain(SplitReference(x).0) && Plain(SplitReference(x).1)
  {
    LastCutSound(x, '@');
    LastCutSound(x, ':');
    HubPlain();
    if LastCut(x, '@').Some? {
      var (a, b) := LastCut(x, '@').value;
      assert forall c | c in a || c in b :: c in x;
    } else if LastCut(x, ':').Some? {
      var (a, b) := LastCut(x, ':').value;
      assert forall c | c in a || c in b :: c in x;
    }
  }

  lemma ResolvePlain(scheme: string, s: string, first: string, rest: string, r: ImageReference)
    requires Located(s, first, rest) && Resolve(scheme, Contains(s, "://"), first, rest) == Success(r)
    ensures Normal(r) && (Contains(s, "://") ==> ValidHost(r.registry))
    ensures Finish("docker", r.registry, Tail(r)) == Success(r.(scheme := "docker"))
  {
    PlainTrim(first);
    PlainTrim(rest);
    PlainLower(first);
    LowerAddsNo(first, '/');
    HubPlain();
    var host := ToLower(first);
    if Contains(s, "://") { LowerValidHost(first); }
    SlashBetween(host, rest);
    hide Contains, Finish, Plain, ToLower, ValidHost, LooksLikeRegistry, Tail, Normal;
    if !Contains(s, "://") && !LooksLikeRegistry(host) {
      FinishPlain(scheme, "docker.io", host + "/" + rest, r);
      FinishAgain(scheme, "docker.io", host + "/" + rest, r);
    } else {
      FinishPlain(scheme, host, rest, r);
      FinishAgain(scheme, host, rest, r);
    }
  }

  lemma SlashBetween(a: string, b: string)
    requires Plain(a) && Plain(b)
    ensures Plain(a + "/" + b)
  {}

  lemma ParsedIsNormal(raw: string, r: ImageReference)
    requires Plain(raw) && ParseReference(raw) == Success(r)
    ensures Normal(r) && (Contains(raw, "://") ==> ValidHost(r.registry))
    ensures Finish("docker", r.registry, Tail(r)) == Success(r.(scheme := "docker"))
  {
    PlainTrim(raw);
    hide Contains, Resolve, Plain, AddressOf, SplitHost, Normal, Finish, Tail, ValidHost, Located, TrimSpace;
    var (scheme, address) := AddressOf(raw).value;
    var (first, rest) := SplitHost(address, Contains(raw, "://")).value;
    AddressLocated(raw, scheme, address, first, rest);
    ResolvePlain(scheme, raw, first, rest, r);
  }

  // ---------------------------------------------------------------- what is read out of plain text

  /** How repository, reference and digest flag are written one after another; a tag may be left out. */
  ghost predicate Spells(tail: string, repository: string, reference: string, isDigest: bool) {
    if isDigest then tail == repository + "@" + reference && '@' !in reference
    else
      && '@' !in tail
      && (|| (tail == repository + ":" + reference && ':' !in reference && '/' !in reference)
          || (tail == repository && reference == "latest" && forall i | 0 <= i < |tail| && tail[i] == ':' ::
                '/' in tail[i + 1..]))
  }

  lemma SplitSpells(tail: string)
    ensures var (repository, reference, isDigest) := SplitReference(tail);
            Spells(tail, repository, reference, isDigest)
  {
    LastCutSound(tail, '@');
    LastCutSound(tail, ':');
    if LastCut(tail, '@').None? && LastCut(tail, ':').Some? {
      var (a, b) := LastCut(tail, ':').value;
      if '/' in b {
        forall i | 0 <= i < |tail| && tail[i] == ':' ensures '/' in tail[i + 1..] { SlashFollows(a, b, i); }
      }
    }
  }

  lemma SlashFollows(a: string, b: string, i: nat)
    requires '/' in b && ':' !in b && i < |a + ":" + b| && (a + ":" + b)[i] == ':'
    ensures '/' in (a + ":" + b)[i + 1..]
  {
    AfterColon(a, b, i);
    var whole := a + ":" + b;
    var j :| 0 <= j < |b| && b[j] == '/';
    assert whole[i + 1..][|a| + 1 + j - (i + 1)] == '/';
  }

  lemma AfterColon(a: string, b: string, i: nat)
    requires i < |a + ":" + b|
    ensures i > |a| ==> (a + ":" + b)[i] in b
  {
    if i > |a| { assert (a + ":" + b)[i] == b[i - |a| - 1]; }
  }

  /** Two slashes in a row leave an empty name, which is not the first one. */
  lemma {:induction false} DoubleSlashHasEmpty(p: string, i: nat) returns (k: nat)
    requires OccursAt(p, "//", i)
    ensures 0 < k < |Parts(p)| && Parts(p)[k] == ""
  {
    if i == 0 {
      assert p[0..2][0] == p[0] && p[0..2][1] == p[1] && p[1] == p[1..][0];
      k := 1;
    } else {
      assert p[1..][i - 1..i + 1] == p[i..i + 2];
      k := DoubleSlashHasEmpty(p[1..], i - 1);
      if p[0] == '/' { k := k + 1; }
    }
  }

  /** A repository is valid exactly when the texts between its slashes are names. */
  lemma {:induction false} RepositoryNames(repository: string)
    ensures ValidRepository(repository) <==> Names(Parts(repository))
  {
    if Contains(repository, "//") {
      var i: nat :| i <= |repository| && OccursAt(repository, "//", i);
      var k := DoubleSlashHasEmpty(repository, i);
      assert Parts(repository)[k] in Parts(repository);
    }
    assert Parts("") == [""] && "" in [""];
    hide OccursAt, Parts;
  }

  /** The registry a host stands for, and the host it is reached at. */
  function RegistryOf(host: string): (string, string) {
    if host == "docker.io" || host == "index.docker.io" then ("docker.io", "registry-1.docker.io") else (host, host)
  }

  /** The second half of ParseReference on any host and text. */
  lemma FinishMeaning(scheme: string, host: string, tail: string)
    returns (repository: string, reference: string, isDigest: bool)
    ensures Spells(tail, repository, reference, isDigest)
    ensures Finish(scheme, host, tail).Success? <==>
              Names(Parts(repository)) && reference != "" && (isDigest ==> ParseDigest(reference).Success?)
    ensures Finish(scheme, host, tail).Success? ==>
              var r := Finish(scheme, host, tail).value;
              && r.scheme == scheme && (r.registry, r.endpointHost) == RegistryOf(host)
              && r.reference == reference && r.isDigest == isDigest
              && r.repository == (if r.registry == "docker.io" && '/' !in repository then "library/" else "") + repository
  {
    var parts := SplitReference(tail);
    repository, reference, isDigest := parts.0, parts.1, parts.2;
    SplitSpells(tail);
    RepositoryNames(repository);
    hide SplitReference, ValidRepository, Parts, ParseDigest, Spells;
  }

  lemma LowerHas(s: string, sep: char)
    requires !('a' <= sep <= 'z') && !('A' <= sep <= 'Z')
    ensures sep in s <==> sep in ToLower(s)
  {
    if i :| 0 <= i < |s| && s[i] == sep {
      assert ToLower(s)[i] == sep;
    } else {
      forall i | 0 <= i < |s| ensures ToLower(s)[i] != sep {}
    }
  }

  /** A reference without a scheme and with a slash: the text before it is the registry only if it looks like one. */
  lemma FirstNameDecides(h: string, rest: string)
    requires Plain(h) && Plain(rest) && h != "" && '/' !in h && !Contains(h + "/" + rest, "://")
    ensures ParseReference(h + "/" + rest)
         == if rest == "" then Failure("repository path is required")
            else if '.' in h || ':' in h || ToLower(h) == "localhost" then Finish("docker", ToLower(h), rest)
            else Finish("docker", "docker.io", ToLower(h) + "/" + rest)
  {
    var s := h + "/" + rest;
    SlashBetween(h, rest);
    PlainTrim(s);
    PlainTrim(h);
    PlainTrim(rest);
    CutAtFirst(h, '/', rest);
    LowerHas(h, '.');
    LowerHas(h, ':');
    hide Contains, TrimSpace, Cut, ToLower, Plain, Finish, ParseUrl;
    assert s == h + ['/'] + rest;
    assert |ToLower(h)| == |h|;
  }

  /** The letter case of the first name of a reference without a scheme makes no difference. */
  lemma HostCaseBlind(h: string, other: string, rest: string)
    requires Plain(h) && Plain(other) && Plain(rest) && '/' !in h && '/' !in other && h != ""
    requires !Contains(h + "/" + rest, "://") && !Contains(other + "/" + rest, "://")
    requires |other| == |h| && forall i | 0 <= i < |h| ::
               || other[i] == h[i]
               || ('A' <= h[i] <= 'Z' && other[i] as int == h[i] as int + 32)
               || ('A' <= other[i] <= 'Z' && h[i] as int == other[i] as int + 32)
    ensures ParseReference(other + "/" + rest) == ParseReference(h + "/" + rest)
  {
    CaseBlind(h, other);
    FirstNameDecides(h, rest);
    FirstNameDecides(other, rest);
    LowerHas(h, '.');
    LowerHas(other, '.');
    LowerHas(h, ':');
    LowerHas(other, ':');
    hide *;
  }

  /** A reference without a scheme and a slash is a Docker Hub repository. */
  lemma BareReference(s: string)
    requires Plain(s) && s != "" && '/' !in s && !Contains(s, "://")
    ensures ParseReference(s) == Finish("docker", "docker.io", s)
  {
    PlainTrim(s);
    CutSound(s, '/');
    HubPlain();
    PlainTrim("docker.io");
    hide Contains, TrimSpace, Cut, ToLower, Plain, Finish, ParseUrl;
    assert LooksLikeRegistry("docker.io") by { assert "docker.io"[6] == '.'; }
  }

  /**
   * References as people write them. Before the first slash stands a registry if it has a dot or a colon or is
   * localhost, in any letter case, and then it is the registry, lower-cased; otherwise the registry is Docker Hub and
   * that text begins the repository. What follows is read as repository, tag or digest, and parsing succeeds exactly
   * when the repository is a list of names and the reference is there and valid.
   */
  lemma PlainReference(h: string, rest: string) returns (repository: string, reference: string, isDigest: bool)
    requires Plain(h) && Plain(rest) && h != "" && rest != "" && '/' !in h && !Contains(h + "/" + rest, "://")
    ensures var named := '.' in h || ':' in h || ToLower(h) == "localhost";
            Spells(if named then rest else ToLower(h) + "/" + rest, repository, reference, isDigest)
    ensures ParseReference(h + "/" + rest).Success? <==>
              Names(Parts(repository)) && reference != "" && (isDigest ==> ParseDigest(reference).Success?)
    ensures ParseReference(h + "/" + rest).Success? ==>
              var r := ParseReference(h + "/" + rest).value;
              var named := '.' in h || ':' in h || ToLower(h) == "localhost";
              && r.scheme == "docker" && r.reference == reference && r.isDigest == isDigest
              && (r.registry, r.endpointHost) == RegistryOf(if named then ToLower(h) else "docker.io")
              && r.repository == (if r.registry == "docker.io" && '/' !in repository then "library/" else "") + repository
  {
    FirstNameDecides(h, rest);
    hide *;
    if '.' in h || ':' in h || ToLower(h) == "localhost" {
      repository, reference, isDigest := FinishMeaning("docker", ToLower(h), rest);
    } else {
      repository, reference, isDigest := FinishMeaning("docker", "docker.io", ToLower(h) + "/" + rest);
    }
  }

  /** A reference as it is written with a scheme. */
  function Written(scheme: string, h: string, rest: string): string { scheme + "://" + h + "/" + rest }

  /**
   * References with a scheme: docker and oci, in any letter case, and no other. The host is then the registry whatever
   * it looks like, lower-cased, and has to be one a URL can have.
   */
  lemma SchemeReference(scheme: string, h: string, rest: string)
    requires scheme != "" && forall c | c in scheme :: 'a' <= c <= 'z' || 'A' <= c <= 'Z'
    requires Plain(h) && Plain(rest) && '/' !in h
    ensures var s := Written(scheme, h, rest);
            if (ToLower(scheme) == "docker" || ToLower(scheme) == "oci") && h != "" && ValidHost(h) && rest != ""
            then ParseReference(s) == Finish(ToLower(scheme), ToLower(h), rest)
            else ParseReference(s).Failure?
  {
    var s := Written(scheme, h, rest);
    WrittenPlain(scheme, h, rest);
    AddressOfWritten(scheme, h, rest);
    PlainTrim(s);
    PlainTrim(h);
    PlainTrim(rest);
    CutAtFirst(h, '/', rest);
    assert h + "/" + rest == h + ['/'] + rest;
    hide Contains, Finish, Plain, AddressOf, ValidHost, TrimSpace, ToLower, Cut, Written;
    assert |ToLower(h)| == |h|;
  }

  lemma WrittenPlain(scheme: string, h: string, rest: string)
    requires forall c | c in scheme :: 'a' <= c <= 'z' || 'A' <= c <= 'Z'
    requires Plain(h) && Plain(rest)
    ensures Plain(Written(scheme, h, rest)) && Written(scheme, h, rest) != ""
    ensures Contains(Written(scheme, h, rest), "://")
  {
    assert Plain(scheme) && Plain("://") && Plain("/");
    hide Plain;
    PlainConcat(scheme, "://");
    PlainConcat(scheme + "://", h);
    PlainConcat(scheme + "://" + h, "/");
    PlainConcat(scheme + "://" + h + "/", rest);
    assert OccursAt(Written(scheme, h, rest), "://", |scheme|);
  }

  lemma AddressOfWritten(scheme: string, h: string, rest: string)
    requires scheme != "" && forall c | c in scheme :: 'a' <= c <= 'z' || 'A' <= c <= 'Z'
    requires '/' !in h
    ensures Contains(Written(scheme, h, rest), "://") ==>
              if (ToLower(scheme) == "docker" || ToLower(scheme) == "oci") && h != "" && ValidHost(h)
              then AddressOf(Written(scheme, h, rest)) == Success((ToLower(scheme), h + "/" + rest))
              else AddressOf(Written(scheme, h, rest)).Failure?
  {
    UrlOfWritten(scheme, h, rest);
    hide Contains, ParseUrl, ValidHost, ToLower, Written;
    assert TrimSlash("/" + rest) == rest;
  }

  lemma UrlOfWritten(scheme: string, h: string, rest: string)
    requires scheme != "" && forall c | c in scheme :: 'a' <= c <= 'z' || 'A' <= c <= 'Z'
    requires '/' !in h
    ensures ParseUrl(Written(scheme, h, rest)) == if ValidHost(h) then Some((ToLower(scheme), h, "/" + rest)) else None
  {
    var after := "//" + h + "/" + rest;
    assert Written(scheme, h, rest) == scheme + [':'] + after;
    CutAtFirst(scheme, ':', after);
    assert scheme[0] in scheme;
    assert SchemeOf(Written(scheme, h, rest)) == Some((scheme, after));
    assert after[2..] == h + ['/'] + rest;
    CutAtFirst(h, '/', rest);
    hide SchemeOf, ValidHost, ToLower, Cut, Written;
  }

  // ---------------------------------------------------------------- parsing the printed form

  /** Parsing the printed form of a normal reference: it fails on an invalid host, and otherwise finishes as before. */
  lemma ParsePrinted(r: ImageReference)
    requires Normal(r)
    ensures ValidHost(r.registry) ==> ParseReference(Printed(r)) == Finish("docker", r.registry, Tail(r))
    ensures !ValidHost(r.registry) ==> ParseReference(Printed(r)).Failure?
  {
    DockerLower();
    SchemeReference("docker", r.registry, Tail(r));
    assert Printed(r) == Written("docker", r.registry, Tail(r));
    hide Plain, ToLower, ValidHost, Finish, ParseReference, Tail;
  }

  lemma DockerLower()
    ensures ToLower("docker") == "docker" && forall c | c in "docker" :: 'a' <= c <= 'z'
  {
    LowerFixed("docker");
  }

  /**
   * Normal form: over plain text, parsing the printed form of a parsed reference gives the same registry, endpoint,
   * repository, reference and digest flag exactly when the registry is a valid URL host, as it always is when the
   * reference was written with a scheme. Otherwise the printed form is refused.
   */
  lemma NormalForm(raw: string, r: ImageReference)
    requires Plain(raw) && ParseReference(raw) == Success(r)
    ensures ParseReference(Printed(r)) == Success(r.(scheme := "docker")) <==> ValidHost(r.registry)
    ensures ParseReference(Printed(r)).Failure? <==> !ValidHost(r.registry)
    ensures Contains(raw, "://") ==> ValidHost(r.registry)
  {
    hide *;
    ParsedIsNormal(raw, r);
    ParsePrinted(r);
  }

  /** A reference without a scheme whose host has a port that is no number parses, and its printed form does not. */
  lemma PrintedFormRefused()
    ensures ParseReference("a:b/c").Success?
    ensures ParseReference(Printed(ParseReference("a:b/c").value)).Failure?
  {
    SmallParse();
    assert Plain("a:b/c");
    hide *;
    NormalForm("a:b/c", SmallReference());
    SmallHost();
  }

  function SmallReference(): ImageReference { ImageReference("docker", "a:b", "a:b", "c", "latest", false) }

  lemma SmallHost()
    ensures SmallReference().registry == "a:b" && !ValidHost("a:b")
  {
    LastCutAtLast("a", ':', "b");
    assert "a:b" == "a" + [':'] + "b" && 'b' in "b";
  }

  lemma SmallParse()
    ensures ParseReference("a:b/c") == Success(SmallReference())
  {
    SmallSplit();
    SmallFinish();
    PlainTrim("a:b/c");
    PlainTrim("a:b");
    PlainTrim("c");
    LowerFixed("a:b");
    hide TrimSpace, ToLower, Finish, SplitHost, Contains, Plain, SmallReference;
  }

  lemma SmallSplit()
    ensures !Contains("a:b/c", "://") && SplitHost("a:b/c", false) == Success(("a:b", "c"))
  {
    CutAtFirst("a:b", '/', "c");
    assert "a:b/c" == "a:b" + ['/'] + "c";
    forall i: nat ensures !OccursAt("a:b/c", "://", i) {
      assert i + 3 <= 5 ==> "a:b/c"[i..i + 3][2] != '/' || "a:b/c"[i..i + 3][1] != '/';
    }
    hide Cut, OccursAt;
  }

  lemma SmallFinish()
    ensures Finish("docker", "a:b", "c") == Success(SmallReference())
  {
    LastCutSound("c", '@');
    LastCutSound("c", ':');
    PartsOfName("c");
    forall i: nat ensures !OccursAt("c", "//", i) {}
    hide LastCut, Parts, OccursAt;
  }
}
