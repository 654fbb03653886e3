/**
 * Client.Download and downloadAttempt: a retry loop that resumes a partial file with HTTP range requests
 * (RFC 9110, sections 14.2 and 15.3.7) and checks what it ends up with.
 */
module DownloadClient {
  import opened Text

  /** An empty checksum skips the checksum test; an expected size of zero or less skips the size test. */
  datatype Options<Hash> = Options(expectedChecksum: Option<Hash>, expectedSize: int, retryCount: int)

  /**
   * What a request brings back: no response; a status outside 200 to 299; or a body, of which some bytes arrive and
   * the transfer then ends or breaks. partial stands for status 206 and, as the code treats them alike, for every
   * other status of 200 to 299 but 200. cancelled marks errors caused by the context.
   */
  datatype Reply =
    | NoResponse(cancelled: bool)
    | ErrorStatus(code: int)
    | Content(partial: bool, bytes: Bytes, broken: bool, cancelled: bool)

  /** The network: the reply to attempt number attempt when it asks for the bytes from offset on (0 asks for all). */
  type Network = (nat, nat) -> Reply

  /** When the context is found cancelled: before an attempt, or in the pause after it. */
  datatype Context = Context(before: nat -> bool, during: nat -> bool)

  datatype DownloadError = CancelledError | StatusError(code: int) | RetryableError | RetriesExhausted

  datatype AttemptResult<Hash> = Done(size: nat, sum: Hash) | Error(error: DownloadError)

  datatype DownloadResult<Hash> =
    | Finished(size: nat, sum: Hash, resumed: bool, attempts: nat)
    | GaveUp(error: DownloadError)

  /** shouldNotRetry */
  predicate ShouldNotRetry(e: DownloadError) {
    e.StatusError? && 400 <= e.code < 500 && e.code != 429
  }

  // ---------------------------------------------------------------- specification of one attempt

  /** The file as an attempt finds it: resumed only when it is smaller than the expected size, else removed if any. */
  function Prepared(file: Option<Bytes>, expectedSize: int): Bytes {
    match file
    case None => []
    case Some(b) => if expectedSize > 0 && |b| < expectedSize then b else []
  }

  /** The file after the body has been written: appended to on 206, rewritten from the start on 200. */
  function Written(start: Bytes, reply: Reply): Bytes
    requires reply.Content?
  {
    if reply.partial then start + reply.bytes else reply.bytes
  }

  predicate Accepts<Hash(==)>(opts: Options<Hash>, hash: Bytes -> Hash, b: Bytes) {
    match opts.expectedChecksum
    case Some(sum) => hash(b) == sum
    case None => opts.expectedSize <= 0 || |b| == opts.expectedSize
  }

  /** One attempt on a prepared file: what it leaves on disk and what it reports. */
  function Attempt<Hash(==)>(opts: Options<Hash>, hash: Bytes -> Hash, start: Bytes, reply: Reply)
    : (Option<Bytes>, AttemptResult<Hash>)
  {
    match reply
    case NoResponse(cancelled) => (Some(start), Error(if cancelled then CancelledError else RetryableError))
    case ErrorStatus(code) => (Some(start), Error(StatusError(code)))
    case Content(_, _, broken, cancelled) =>
      var b := Written(start, reply);
      if broken then (Some(b), Error(if cancelled then CancelledError else RetryableError))
      else if Accepts(opts, hash, b) then (Some(b), Done(|b|, hash(b)))
      else (None, Error(RetryableError))
  }

  function Retries(retryCount: int): int { if retryCount == 0 then 3 else retryCount }

  /** The retry loop from attempt number attempt on: the file left on disk and the result. */
  function Loop<Hash(==)>(opts: Options<Hash>, hash: Bytes -> Hash, net: Network, ctx: Context, attempt: nat,
                          file: Option<Bytes>, resumed: bool): (r: (Option<Bytes>, DownloadResult<Hash>))
    decreases Retries(opts.retryCount) - attempt
  {
    if attempt > Retries(opts.retryCount) then (file, GaveUp(RetriesExhausted))
    else if ctx.before(attempt) then (file, GaveUp(CancelledError))
    else
      var start := Prepared(file, opts.expectedSize);
      var resumed' := resumed || (file.Some? && opts.expectedSize > 0 && |file.value| < opts.expectedSize);
      var (left, outcome) := Attempt(opts, hash, start, net(attempt, |start|));
      match outcome
      case Done(size, sum) => (left, Finished(size, sum, resumed' && attempt == 1, attempt))
      case Error(e) =>
        if e.CancelledError? then (left, GaveUp(e))
        else if ShouldNotRetry(e) then (None, GaveUp(e))
        else if attempt < Retries(opts.retryCount) && ctx.during(attempt) then (left, GaveUp(CancelledError))
        else Loop(opts, hash, net, ctx, attempt + 1, left, resumed')
  }

  // ---------------------------------------------------------------- the imperative client

  /** The destination file and the client working on it. */
  class Client<Hash(==)> {
    const hash: Bytes -> Hash
    var dest: Option<Bytes>

    constructor (hash: Bytes -> Hash, dest: Option<Bytes>)
      ensures this.hash == hash && this.dest == dest
    {
      this.hash, this.dest := hash, dest;
    }

    /** downloadAttempt: dest is open and holds fileSize bytes. */
    method DownloadAttempt(opts: Options<Hash>, net: Network, fileSize: nat, attempt: nat)
      returns (r: AttemptResult<Hash>)
      requires dest.Some? && |dest.value| == fileSize
      modifies this`dest
      ensures (dest, r) == Attempt(opts, hash, old(dest.value), net(attempt, fileSize))
    {
      var reply := net(attempt, fileSize);
      if reply.NoResponse? {
        return Error(if reply.cancelled then CancelledError else RetryableError);
      }
      if reply.ErrorStatus? {
        return Error(StatusError(reply.code));
      }
      var size := fileSize;
      if !reply.partial && size > 0 {
        dest, size := Some([]), 0;
      }
      dest := Some(dest.value + reply.bytes);
      assert dest.value == Written(old(dest.value), reply);
      if reply.broken {
        return Error(if reply.cancelled then CancelledError else RetryableError);
      }
      var finalSize := size + |reply.bytes|;
      var sum := hash(dest.value);
      if opts.expectedChecksum.Some? {
        if sum != opts.expectedChecksum.value {
          dest := None;
          return Error(RetryableError);
        }
      } else if opts.expectedSize > 0 && finalSize != opts.expectedSize {
        dest := None;
        return Error(RetryableError);
      }
      return Done(finalSize, sum);
    }

    /** Download */
    method Download(opts: Options<Hash>, net: Network, ctx: Context) returns (r: DownloadResult<Hash>)
      modifies this`dest
      ensures (dest, r) == Loop(opts, hash, net, ctx, 1, old(dest), false)
    {
      var retryCount := if opts.retryCount == 0 then 3 else opts.retryCount;
      var resumed := false;
      var attempt := 1;
      while attempt <= retryCount
        invariant 1 <= attempt
        invariant Loop(opts, hash, net, ctx, attempt, dest, resumed) == Loop(opts, hash, net, ctx, 1, old(dest), false)
      {
        if ctx.before(attempt) {
          return GaveUp(CancelledError);
        }
        var fileSize := 0;
        if dest.Some? {
          var existingSize := |dest.value|;
          if opts.expectedSize > 0 && existingSize < opts.expectedSize {
            fileSize, resumed := existingSize, true;
          } else if existingSize > 0 {
            dest := None;
          }
        }
        if dest.None? {
          dest := Some([]);
        }
        var outcome := DownloadAttempt(opts, net, fileSize, attempt);
        if outcome.Done? {
          return Finished(outcome.size, outcome.sum, resumed && attempt == 1, attempt);
        }
        if outcome.error.CancelledError? {
          return GaveUp(outcome.error);
        }
        if ShouldNotRetry(outcome.error) {
          dest := None;
          return GaveUp(outcome.error);
        }
        if attempt < retryCount && ctx.during(attempt) {
          return GaveUp(CancelledError);
        }
        attempt := attempt + 1;
      }
      return GaveUp(RetriesExhausted);
    }
  }

  // ---------------------------------------------------------------- an honest server

  /**
   * A server for content: what arrives of a full reply is a prefix of the content, what arrives of a partial reply to
   * a range request is a prefix of the rest, and a transfer that does not break is whole. It may fail in any way.
   */
  ghost predicate HonestReply(content: Bytes, offset: nat, reply: Reply) {
    reply.Content? ==>
      var rest := if reply.partial then (if offset <= |content| then content[offset..] else []) else content;
      && (reply.partial ==> 0 < offset < |content|)
      && reply.bytes <= rest
      && (!reply.broken ==> reply.bytes == rest)
  }

  ghost predicate Honest(content: Bytes, net: Network) {
    forall attempt, offset :: HonestReply(content, offset, net(attempt, offset))
  }

  /** Absent, or the first bytes of the content. */
  ghost predicate PartOf(file: Option<Bytes>, content: Bytes) { file.Some? ==> file.value <= content }

  /** A result that describes the file: the size and hash of the bytes on disk, acceptable to the options. */
  ghost predicate Describes<Hash>(opts: Options<Hash>, hash: Bytes -> Hash, file: Option<Bytes>,
                                  r: DownloadResult<Hash>) {
    r.Finished? ==>
      && file.Some? && r.size == |file.value| && r.sum == hash(file.value) && Accepts(opts, hash, file.value)
  }

  // ---------------------------------------------------------------- what every download keeps

  /**
   * Whatever the network does, a success reports the size and the hash of the bytes on disk, and they pass the test.
   */
  lemma {:induction false} SuccessDescribesFile<Hash>(opts: Options<Hash>, hash: Bytes -> Hash, net: Network,
                                                      ctx: Context, attempt: nat, file: Option<Bytes>, resumed: bool)
    ensures var (left, r) := Loop(opts, hash, net, ctx, attempt, file, resumed);
            Describes(opts, hash, left, r)
            && (r.Finished? ==> attempt <= r.attempts <= if opts.retryCount == 0 then 3 else opts.retryCount)
    decreases Retries(opts.retryCount) - attempt
  {
    if attempt <= Retries(opts.retryCount) && !ctx.before(attempt) {
      var start := Prepared(file, opts.expectedSize);
      var resumed' := resumed || (file.Some? && opts.expectedSize > 0 && |file.value| < opts.expectedSize);
      var (left, outcome) := Attempt(opts, hash, start, net(attempt, |start|));
      SuccessDescribesFile(opts, hash, net, ctx, attempt + 1, left, resumed');
    }
  }

  lemma AttemptKeepsPart<Hash>(opts: Options<Hash>, hash: Bytes -> Hash, content: Bytes, start: Bytes, reply: Reply)
    requires start <= content && HonestReply(content, |start|, reply)
    ensures var (left, outcome) := Attempt(opts, hash, start, reply);
            PartOf(left, content) && (outcome.Done? ==> left == Some(content))
  {
    if reply.Content? && reply.partial {
      assert content == start + content[|start|..];
    }
  }

  /**
   * Resume invariant: against an honest server, a file that starts absent or as a prefix of the content is so again
   * whenever Download returns, and every success leaves exactly the content, with a checksum, a size or neither.
   */
  lemma {:induction false} DownloadKeepsPart<Hash>(opts: Options<Hash>, hash: Bytes -> Hash, content: Bytes,
                                                   net: Network, ctx: Context, attempt: nat, file: Option<Bytes>,
                                                   resumed: bool)
    requires Honest(content, net) && PartOf(file, content)
    ensures var (left, r) := Loop(opts, hash, net, ctx, attempt, file, resumed);
            PartOf(left, content) && (r.Finished? ==> left == Some(content))
    decreases Retries(opts.retryCount) - attempt
  {
    if attempt <= Retries(opts.retryCount) && !ctx.before(attempt) {
      var start := Prepared(file, opts.expectedSize);
      var reply := net(attempt, |start|);
      var resumed' := resumed || (file.Some? && opts.expectedSize > 0 && |file.value| < opts.expectedSize);
      assert HonestReply(content, |start|, reply);
      AttemptKeepsPart(opts, hash, content, start, reply);
      var (left, outcome) := Attempt(opts, hash, start, reply);
      DownloadKeepsPart(opts, hash, content, net, ctx, attempt + 1, left, resumed');
    }
  }

  datatype Call<Hash> = Call(opts: Options<Hash>, net: Network, ctx: Context)

  /** The file after a series of calls. */
  ghost function AfterCalls<Hash>(hash: Bytes -> Hash, calls: seq<Call<Hash>>, file: Option<Bytes>): Option<Bytes> {
    if calls == [] then file
    else
      var n := |calls| - 1;
      var c := calls[n];
      Loop(c.opts, hash, c.net, c.ctx, 1, AfterCalls(hash, calls[..n], file), false).0
  }

  /** The resume invariant over any series of calls with any options, cut short in any way. */
  lemma {:induction false} RepeatedDownloadsKeepPart<Hash>(hash: Bytes -> Hash, content: Bytes, calls: seq<Call<Hash>>,
                                                           file: Option<Bytes>)
    requires PartOf(file, content) && forall k | 0 <= k < |calls| :: Honest(content, calls[k].net)
    ensures PartOf(AfterCalls(hash, calls, file), content)
  {
    if calls != [] {
      var n := |calls| - 1;
      var c := calls[n];
      RepeatedDownloadsKeepPart(hash, content, calls[..n], file);
      DownloadKeepsPart(c.opts, hash, content, c.net, c.ctx, 1, AfterCalls(hash, calls[..n], file), false);
    }
  }

  // ---------------------------------------------------------------- self-healing

  ghost predicate NeverCancelled(ctx: Context) {
    forall attempt :: !ctx.before(attempt) && !ctx.during(attempt)
  }

  /**
   * A server that is up: it sends the whole of what it can send, by a full or a partial reply as it likes, and answers
   * 416 to a range that starts at or past the end (RFC 9110, section 15.5.17).
   */
  ghost predicate Available(content: Bytes, net: Network) {
    forall attempt, offset :: AvailableReply(content, offset, net(attempt, offset))
  }

  ghost predicate AvailableReply(content: Bytes, offset: nat, reply: Reply) {
    if offset == 0 || offset < |content| then reply.Content? && !reply.broken && HonestReply(content, offset, reply)
    else reply == ErrorStatus(416)
  }

  lemma WholeReply(content: Bytes, start: Bytes, reply: Reply)
    requires AvailableReply(content, |start|, reply) && (start == [] || |start| < |content|)
    ensures reply.Content? && !reply.broken
    ensures Written(start, reply) == if reply.partial then start + content[|start|..] else content
    ensures start == [] ==> Written(start, reply) == content
  {}

  /** From an absent file one attempt against an available server is enough. */
  lemma {:induction false} FreshAttemptSucceeds<Hash>(opts: Options<Hash>, hash: Bytes -> Hash, content: Bytes,
                                                      net: Network, ctx: Context, attempt: nat, resumed: bool)
    requires Available(content, net) && NeverCancelled(ctx) && Accepts(opts, hash, content)
    requires 1 <= attempt <= Retries(opts.retryCount)
    ensures var (left, r) := Loop(opts, hash, net, ctx, attempt, None, resumed);
            left == Some(content) && r.Finished? && r.attempts == attempt
  {
    assert AvailableReply(content, 0, net(attempt, 0));
    WholeReply(content, [], net(attempt, 0));
  }

  /**
   * Self-healing: whatever bytes are in the way, with the content's checksum and two attempts allowed, Download
   * against an available server succeeds within two attempts exactly when it does not ask for a range past the end;
   * when it does ask for one, it gives up at once but removes the file that made it ask.
   */
  lemma {:induction false} SelfHealing<Hash>(opts: Options<Hash>, hash: Bytes -> Hash, content: Bytes, net: Network,
                                             ctx: Context, file: Option<Bytes>)
    requires Available(content, net) && NeverCancelled(ctx)
    requires opts.expectedChecksum == Some(hash(content)) && Retries(opts.retryCount) >= 2
    ensures var (left, r) := Loop(opts, hash, net, ctx, 1, file, false);
            var start := Prepared(file, opts.expectedSize);
            && (r.Finished? <==> start == [] || |start| < |content|)
            && (r.Finished? ==> r.attempts <= 2 && left.Some? && hash(left.value) == hash(content))
            && (r.GaveUp? ==> left == None)
  {
    var start := Prepared(file, opts.expectedSize);
    var reply := net(1, |start|);
    assert AvailableReply(content, |start|, reply);
    if start == [] || |start| < |content| {
      WholeReply(content, start, reply);
      var (left, outcome) := Attempt(opts, hash, start, reply);
      if outcome.Error? {
        var resumed := file.Some? && opts.expectedSize > 0 && |file.value| < opts.expectedSize;
        FreshAttemptSucceeds(opts, hash, content, net, ctx, 2, resumed);
      }
    }
  }

  ghost predicate Injective<Hash>(hash: Bytes -> Hash) {
    forall a, b | hash(a) == hash(b) :: a == b
  }

  /** With the right size as well, and a hash without collisions, it always ends with exactly the content. */
  lemma {:induction false} SelfHealingExact<Hash>(opts: Options<Hash>, hash: Bytes -> Hash, content: Bytes,
                                                  net: Network, ctx: Context, file: Option<Bytes>)
    requires Available(content, net) && NeverCancelled(ctx) && Injective(hash)
    requires opts.expectedChecksum == Some(hash(content)) && opts.expectedSize == |content|
    requires Retries(opts.retryCount) >= 2
    ensures var (left, r) := Loop(opts, hash, net, ctx, 1, file, false);
            left == Some(content) && r.Finished? && r.attempts <= 2 && r.size == |content|
  {
    SelfHealing(opts, hash, content, net, ctx, file);
    SuccessDescribesFile(opts, hash, net, ctx, 1, file, false);
  }

  /**
   * Without a checksum the size is no protection: a resumed download of the right size is reported as a success, and
   * it leaves the content exactly when the file in the way was a prefix of the content or the server sent it whole.
   */
  lemma {:induction false} SizeOnlyResume<Hash>(opts: Options<Hash>, hash: Bytes -> Hash, content: Bytes, net: Network,
                                                ctx: Context, file: Option<Bytes>)
    requires Available(content, net) && NeverCancelled(ctx)
    requires opts.expectedChecksum == None && opts.expectedSize == |content| && Retries(opts.retryCount) >= 1
    ensures var (left, r) := Loop(opts, hash, net, ctx, 1, file, false);
            var start := Prepared(file, opts.expectedSize);
            && r.Finished? && r.attempts == 1 && left.Some? && |left.value| == |content|
            && (left == Some(content) <==> start <= content || !net(1, |start|).partial)
  {
    var start := Prepared(file, opts.expectedSize);
    var reply := net(1, |start|);
    assert AvailableReply(content, |start|, reply);
    WholeReply(content, start, reply);
    if reply.partial {
      assert (start + content[|start|..])[..|start|] == start;
      assert start <= content ==> start + content[|start|..] == content;
    }
  }

  // ---------------------------------------------------------------- one attempt of the loop, by what the network does

  /** What an attempt starts from: a file shorter than the expected size, or nothing. */
  ghost predicate StartsFrom(file: Option<Bytes>, expectedSize: int, start: Bytes) {
    start == if file.Some? && |file.value| < expectedSize then file.value else []
  }

  /** How many attempts there are: as many as asked for, three for zero. */
  ghost function Last(retryCount: int): int { if retryCount == 0 then 3 else retryCount }

  /** The attempt is made. */
  ghost predicate Made<Hash>(opts: Options<Hash>, ctx: Context, attempt: nat) {
    attempt <= Last(opts.retryCount) && !ctx.before(attempt)
  }

  /** After an attempt that may be repeated: the next one, unless it was the last or the pause is cancelled. */
  ghost function AfterFailure<Hash>(opts: Options<Hash>, hash: Bytes -> Hash, net: Network, ctx: Context, attempt: nat,
                                    left: Option<Bytes>, resumed: bool): (Option<Bytes>, DownloadResult<Hash>)
  {
    if attempt >= Last(opts.retryCount) then (left, GaveUp(RetriesExhausted))
    else if ctx.during(attempt) then (left, GaveUp(CancelledError))
    else Loop(opts, hash, net, ctx, attempt + 1, left, resumed)
  }

  /** No attempt is left, or the context is found cancelled before it: the file stays as it is. */
  lemma {:induction false} NoAttempt<Hash>(opts: Options<Hash>, hash: Bytes -> Hash, net: Network, ctx: Context,
                                           attempt: nat, file: Option<Bytes>, resumed: bool)
    requires !Made(opts, ctx, attempt)
    ensures Loop(opts, hash, net, ctx, attempt, file, resumed)
         == (file, GaveUp(if attempt > Last(opts.retryCount) then RetriesExhausted else CancelledError))
  {}

  lemma {:induction false} FailedAttempt<Hash>(opts: Options<Hash>, hash: Bytes -> Hash, net: Network, ctx: Context,
                                               attempt: nat, file: Option<Bytes>, resumed: bool)
    requires Made(opts, ctx, attempt)
    ensures var start := Prepared(file, opts.expectedSize);
            var resumed' := resumed || (file.Some? && |file.value| < opts.expectedSize);
            var (left, outcome) := Attempt(opts, hash, start, net(attempt, |start|));
            outcome.Error? && !outcome.error.CancelledError? && !ShouldNotRetry(outcome.error) ==>
              Loop(opts, hash, net, ctx, attempt, file, resumed)
              == AfterFailure(opts, hash, net, ctx, attempt, left, resumed')
  {
    hide Attempt;
    var start := Prepared(file, opts.expectedSize);
    var resumed' := resumed || (file.Some? && opts.expectedSize > 0 && |file.value| < opts.expectedSize);
    var left := Attempt(opts, hash, start, net(attempt, |start|)).0;
    assert Loop(opts, hash, net, ctx, Retries(opts.retryCount) + 1, left, resumed') == (left, GaveUp(RetriesExhausted));
  }

  /**
   * A status from 400 to 499 other than 429 ends the download at whatever attempt it comes: no further request, that
   * error, and no file.
   */
  lemma {:induction false} PermanentRefusal<Hash>(opts: Options<Hash>, hash: Bytes -> Hash, net: Network, ctx: Context,
                                                  attempt: nat, file: Option<Bytes>, resumed: bool, start: Bytes,
                                                  code: int)
    requires Made(opts, ctx, attempt) && StartsFrom(file, opts.expectedSize, start)
    requires net(attempt, |start|) == ErrorStatus(code) && 400 <= code < 500 && code != 429
    ensures Loop(opts, hash, net, ctx, attempt, file, resumed) == (None, GaveUp(StatusError(code)))
  {}

  /** Any other status may be tried again, and the next attempt finds the file as this one had prepared it. */
  lemma {:induction false} PassingRefusal<Hash>(opts: Options<Hash>, hash: Bytes -> Hash, net: Network, ctx: Context,
                                                attempt: nat, file: Option<Bytes>, resumed: bool, start: Bytes,
                                                code: int)
    requires Made(opts, ctx, attempt) && StartsFrom(file, opts.expectedSize, start)
    requires net(attempt, |start|) == ErrorStatus(code) && (code < 400 || code == 429 || code >= 500)
    ensures Loop(opts, hash, net, ctx, attempt, file, resumed)
         == AfterFailure(opts, hash, net, ctx, attempt, Some(start),
                         resumed || (file.Some? && |file.value| < opts.expectedSize))
  {
    FailedAttempt(opts, hash, net, ctx, attempt, file, resumed);
    hide Loop, AfterFailure;
  }

  /**
   * A transfer that breaks, or never begins, keeps what has arrived. If the context broke it the download ends with
   * that file, and otherwise the next attempt finds it.
   */
  lemma {:induction false} BrokenTransfer<Hash>(opts: Options<Hash>, hash: Bytes -> Hash, net: Network, ctx: Context,
                                                attempt: nat, file: Option<Bytes>, resumed: bool, start: Bytes,
                                                left: Bytes)
    requires Made(opts, ctx, attempt) && StartsFrom(file, opts.expectedSize, start)
    requires match net(attempt, |start|)
             case NoResponse(_) => left == start
             case ErrorStatus(_) => false
             case Content(partial, bytes, broken, _) => broken && left == if partial then start + bytes else bytes
    ensures Loop(opts, hash, net, ctx, attempt, file, resumed)
         == if net(attempt, |start|).cancelled then (Some(left), GaveUp(CancelledError))
            else AfterFailure(opts, hash, net, ctx, attempt, Some(left),
                              resumed || (file.Some? && |file.value| < opts.expectedSize))
  {
    if !net(attempt, |start|).cancelled {
      FailedAttempt(opts, hash, net, ctx, attempt, file, resumed);
      hide Loop, AfterFailure;
    }
  }

  /**
   * A transfer that comes to its end succeeds exactly when the file has the expected checksum or, where none is given,
   * the expected size if one is. It reports the file and this attempt's number, and that it resumed only at the first
   * attempt. Otherwise the file is removed and the next attempt starts from nothing.
   */
  lemma {:induction false} WholeTransfer<Hash>(opts: Options<Hash>, hash: Bytes -> Hash, net: Network, ctx: Context,
                                               attempt: nat, file: Option<Bytes>, resumed: bool, start: Bytes, b: Bytes)
    requires Made(opts, ctx, attempt) && StartsFrom(file, opts.expectedSize, start)
    requires net(attempt, |start|).Content? && !net(attempt, |start|).broken
    requires b == if net(attempt, |start|).partial then start + net(attempt, |start|).bytes else net(attempt, |start|).bytes
    ensures var resumed' := resumed || (file.Some? && |file.value| < opts.expectedSize);
            Loop(opts, hash, net, ctx, attempt, file, resumed)
            == if (if opts.expectedChecksum.Some? then opts.expectedChecksum.value == hash(b)
                   else opts.expectedSize > 0 ==> |b| == opts.expectedSize)
               then (Some(b), Finished(|b|, hash(b), resumed' && attempt == 1, attempt))
               else AfterFailure(opts, hash, net, ctx, attempt, None, resumed')
  {
    FailedAttempt(opts, hash, net, ctx, attempt, file, resumed);
    hide AfterFailure;
  }

  /** Download reports a status error only for a permanent refusal, and then it has removed the file. */
  lemma {:induction false} RefusalRemovesFile<Hash>(opts: Options<Hash>, hash: Bytes -> Hash, net: Network,
                                                    ctx: Context, file: Option<Bytes>, code: int)
    requires Loop(opts, hash, net, ctx, 1, file, false).1 == GaveUp(StatusError(code))
    ensures 400 <= code < 500 && code != 429 && Loop(opts, hash, net, ctx, 1, file, false).0 == None
  {
    RefusalAt(opts, hash, net, ctx, 1, file, false, code);
  }

  lemma {:induction false} RefusalAt<Hash>(opts: Options<Hash>, hash: Bytes -> Hash, net: Network, ctx: Context,
                                           attempt: nat, file: Option<Bytes>, resumed: bool, code: int)
    requires Loop(opts, hash, net, ctx, attempt, file, resumed).1 == GaveUp(StatusError(code))
    ensures 400 <= code < 500 && code != 429 && Loop(opts, hash, net, ctx, attempt, file, resumed).0 == None
    decreases Retries(opts.retryCount) - attempt
  {
    if attempt <= Retries(opts.retryCount) && !ctx.before(attempt) {
      var start := Prepared(file, opts.expectedSize);
      var resumed' := resumed || (file.Some? && opts.expectedSize > 0 && |file.value| < opts.expectedSize);
      var (left, outcome) := Attempt(opts, hash, start, net(attempt, |start|));
      if outcome.Error? && !outcome.error.CancelledError? && !ShouldNotRetry(outcome.error)
         && !(attempt < Retries(opts.retryCount) && ctx.during(attempt)) {
        RefusalAt(opts, hash, net, ctx, attempt + 1, left, resumed', code);
      }
    }
  }

  // ---------------------------------------------------------------- files in the way that are not healed

  /** A server that is always up; ranged says whether it honours range requests. */
  function Server(content: Bytes, ranged: bool): Network {
    (attempt: nat, offset: nat) =>
      if offset == 0 then Content(false, content, false, false)
      else if offset >= |content| then ErrorStatus(416)
      else if ranged then Content(true, content[offset..], false, false)
      else Content(false, content, false, false)
  }

  lemma ServerIsAvailable(content: Bytes, ranged: bool)
    ensures Available(content, Server(content, ranged))
  {
    forall attempt, offset ensures AvailableReply(content, offset, Server(content, ranged)(attempt, offset)) {}
  }

  /**
   * A stale file of three bytes, in the way of two with a wrong expected size: one call against a good server fails.
   */
  lemma {:induction false} StaleFile<Hash>(hash: Bytes -> Hash, ctx: Context, ranged: bool)
    requires NeverCancelled(ctx)
    ensures Available([1, 2], Server([1, 2], ranged))
    ensures var opts := Options(Some(hash([1, 2])), 4, 0);
            Loop(opts, hash, Server([1, 2], ranged), ctx, 1, Some([7, 7, 7]), false)
            == (None, GaveUp(StatusError(416)))
  {
    ServerIsAvailable([1, 2], ranged);
  }

  /** One wrong byte in the way and no checksum: the result is reported as a success and is not the content. */
  lemma {:induction false} WrongPrefix<Hash>(hash: Bytes -> Hash, ctx: Context)
    requires NeverCancelled(ctx)
    ensures Available([1, 2], Server([1, 2], true))
    ensures var opts := Options(None, 2, 0);
            var (left, r) := Loop(opts, hash, Server([1, 2], true), ctx, 1, Some([7]), false);
            left == Some([7, 2]) && r == Finished(2, hash([7, 2]), true, 1)
  {
    ServerIsAvailable([1, 2], true);
    assert [7] + [1, 2][1..] == [7, 2];
  }
}
