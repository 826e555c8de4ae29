/** The scan driver of src/httpdir/scanner.rs: configuration parsing, the worker count,
    the HTTP client wiring, and the feeder loop that reads the word list and hands
    trimmed words to the worker pool. */
module Scanner {
  import opened Common
  import opened Text
  import opened Net
  import opened Utils
  import opened Worker
  import opened ClientBuilder
  import opened Dispatch

  // ---------------------------------------------------------------------------
  // Configuration

  /** The fields of `CommonArgs` the scan reads (the word list is the `wordList`
      parameter of `Run`; output file, silence and verbosity belong to logging). */
  datatype CommonArgs = CommonArgs(threads: U16, delay: I32)

  /** `HttpDirConfig` of src/httpdir/mod.rs. */
  datatype HttpDirConfig = HttpDirConfig(
    target: Url,
    gzip: bool,
    timeout: I32,
    username: Option<string>,
    password: Option<string>,
    userAgent: Option<string>,
    expandUrlLog: bool,
    extentions: Option<seq<string>>,
    defaultExtentions: bool,
    ignoreCodes: Option<seq<string>>,
    printFails: bool)

  /** The digits `u16::from_str` reads: one leading '+' is skipped. */
  function UnsignedDigits(s: string): string {
    if |s| > 0 && s[0] == '+' then s[1..] else s
  }

  predicate AllAsciiDigits(s: string) {
    forall k :: 0 <= k < |s| ==> IsAsciiDigit(s[k])
  }

  /** `s.parse::<u16>()`: an optional '+', then one or more ASCII digits whose value
      fits in 16 bits; anything else (empty, a sign alone, '-', whitespace) is an error. */
  function ParseU16(s: string): Option<U16> {
    var d := UnsignedDigits(s);
    if d == [] || !AllAsciiDigits(d) || DigitsValue(d) > 0xFFFF then None
    else Some(DigitsValue(d))
  }

  /** Every `u16` parses back from its decimal form, with or without a '+'. */
  lemma ParseU16OfDecimal(n: U16)
    ensures ParseU16(Decimal(n)) == Some(n)
    ensures ParseU16("+" + Decimal(n)) == Some(n)
  {
    DecimalValue(n);
    assert UnsignedDigits("+" + Decimal(n)) == Decimal(n);
    assert Decimal(n)[0] != '+';
  }

  /** A number too large for 16 bits does not parse. */
  lemma ParseU16Overflow(n: nat)
    requires n > 0xFFFF
    ensures ParseU16(Decimal(n)) == None
  {
    DecimalValue(n);
    assert Decimal(n)[0] != '+';
  }

  /** A parsed entry starts with a digit or '+': padded or signed entries are dropped. */
  lemma ParseU16Shape(s: string)
    ensures ParseU16(s).Some? ==> |s| > 0 && (IsAsciiDigit(s[0]) || s[0] == '+')
    ensures ParseU16("") == None && ParseU16("+") == None
  {
    if ParseU16(s).Some? && s[0] != '+' {
      assert UnsignedDigits(s)[0] == s[0];
    }
  }

  /** `filter_map(Result::ok)` over the parses: the entries that parse, in order. */
  function ParsedCodes(entries: seq<string>): (r: seq<U16>)
    ensures |r| <= |entries|
  {
    if entries == [] then []
    else
      (match ParseU16(entries[0]) case Some(c) => [c] case None => [])
      + ParsedCodes(entries[1..])
  }

  /** The ignore list built by `new`: empty when none is configured. */
  function IgnoreCodes(input: Option<seq<string>>): seq<U16> {
    match input
    case None => []
    case Some(entries) => ParsedCodes(entries)
  }

  /** A code is ignored exactly when some configured entry parses to it. */
  lemma {:induction false} ParsedCodesMembership(entries: seq<string>, c: U16)
    ensures c in ParsedCodes(entries) <==> exists i :: 0 <= i < |entries| && ParseU16(entries[i]) == Some(c)
    decreases |entries|
  {
    if entries != [] {
      ParsedCodesMembership(entries[1..], c);
      if exists i :: 0 <= i < |entries| && ParseU16(entries[i]) == Some(c) {
        var i :| 0 <= i < |entries| && ParseU16(entries[i]) == Some(c);
        if i > 0 {
          assert entries[1..][i - 1] == entries[i];
        }
      }
      if c in ParsedCodes(entries[1..]) {
        var i :| 0 <= i < |entries[1..]| && ParseU16(entries[1..][i]) == Some(c);
        assert entries[i + 1] == entries[1..][i];
      }
    }
  }

  /** Parsing keeps input order: the codes of two lists are the codes of each in turn. */
  lemma {:induction false} ParsedCodesAppend(a: seq<string>, b: seq<string>)
    ensures ParsedCodes(a + b) == ParsedCodes(a) + ParsedCodes(b)
    decreases |a|
  {
    if a == [] {
      assert a + b == b;
    } else {
      assert (a + b)[0] == a[0] && (a + b)[1..] == a[1..] + b;
      ParsedCodesAppend(a[1..], b);
    }
  }

  /** When every entry parses, nothing is dropped. */
  lemma {:induction false} ParsedCodesAllValid(entries: seq<string>)
    requires forall i :: 0 <= i < |entries| ==> ParseU16(entries[i]).Some?
    ensures |ParsedCodes(entries)| == |entries|
    ensures forall i :: 0 <= i < |entries| ==> Some(ParsedCodes(entries)[i]) == ParseU16(entries[i])
    decreases |entries|
  {
    if entries != [] {
      ParsedCodesAllValid(entries[1..]);
      var r := ParsedCodes(entries);
      forall i | 0 <= i < |entries| ensures Some(r[i]) == ParseU16(entries[i]) {
        if i > 0 {
          assert r[i] == ParsedCodes(entries[1..])[i - 1] && entries[i] == entries[1..][i - 1];
        }
      }
    }
  }

  /** `threads.clamp(1, 300)`. */
  function ClampThreads(threads: U16): (n: nat)
    ensures 1 <= n <= 300
    ensures 1 <= threads <= 300 ==> n == threads
    ensures threads < 1 ==> n == 1
    ensures threads > 300 ==> n == 300
  {
    if threads < 1 then 1 else if threads > 300 then 300 else threads
  }

  // ---------------------------------------------------------------------------
  // The HTTP client

  /** The redirect cap `make_http_client` passes. */
  const MaxRedirects: nat := 5

  /** The default headers: an `authorization` header exactly when a username is given. */
  function AuthHeaders(username: Option<string>, password: Option<string>): seq<Header> {
    if username.None? then []
    else
      CreateAuthHeaderNeverFails(username.value, password);
      [Header(Authorization, CreateAuthHeader(username.value, password).value)]
  }

  /** The client `make_http_client` configures for `cfg`. */
  function ClientSettingsOf(cfg: HttpDirConfig): ClientSettings {
    ClientSettings(
      AuthHeaders(cfg.username, cfg.password),
      cfg.gzip,
      KeepOnDomain(cfg.target.host, MaxRedirects),
      Some(if cfg.userAgent.Some? then cfg.userAgent.value else ""),
      if cfg.timeout > 0 then Some(cfg.timeout as nat) else None)
  }

  /** `make_http_client`: builder defaults, then gzip, a keep-on-target redirect policy
      with a cap of 5, the timeout, the user agent and basic auth when given. */
  method MakeHttpClient(cfg: HttpDirConfig, backendReady: bool) returns (client: Option<ClientSettings>)
    ensures client.Some? <==> backendReady
    ensures client.Some? ==> client.value.gzip == cfg.gzip
    ensures client.Some? ==> client.value.redirect == KeepOnDomain(cfg.target.host, MaxRedirects)
    ensures client.Some? ==> client.value.timeoutMs == (if cfg.timeout > 0 then Some(cfg.timeout as nat) else None)
    ensures client.Some? ==> client.value.userAgent == Some(if cfg.userAgent.Some? then cfg.userAgent.value else "")
    ensures client.Some? ==> client.value.defaultHeaders == AuthHeaders(cfg.username, cfg.password)
    ensures client.Some? ==> client.value == ClientSettingsOf(cfg)
  {
    var builder := new HttpClientBuilder();
    builder.Gzip(cfg.gzip);
    builder.RedirectPolicyKeepOnDomain(cfg.target, MaxRedirects);
    builder.TimeoutMs(cfg.timeout);
    if cfg.userAgent.Some? {
      builder.UserAgent(cfg.userAgent.value);
    }
    if cfg.username.Some? {
      var authorized := builder.BasicAuth(cfg.username.value, cfg.password);
    }
    client := builder.Build(backendReady);
  }

  // ---------------------------------------------------------------------------
  // The scanner

  /** `HttpDirScanner`: fixed once `new` has built it. */
  datatype HttpDirScanner = HttpDirScanner(
    commonArgs: CommonArgs,
    cfg: HttpDirConfig,
    client: ClientSettings,
    extentions: seq<string>,
    ignoreCodes: seq<U16>)

  /** `HttpDirScanner::new`; `None` is the `Err` of a client that cannot be built.
      `defaultLines` are the lines of the built-in extension list. */
  method New(commonArgs: CommonArgs, cfg: HttpDirConfig, defaultLines: seq<string>, backendReady: bool)
    returns (scanner: Option<HttpDirScanner>)
    ensures scanner.Some? <==> backendReady
    ensures scanner.Some? ==> scanner.value.commonArgs == commonArgs && scanner.value.cfg == cfg
    ensures scanner.Some? ==> scanner.value.extentions == ExtensionList(cfg.extentions, cfg.defaultExtentions, defaultLines)
    ensures scanner.Some? ==> scanner.value.ignoreCodes == IgnoreCodes(cfg.ignoreCodes)
    ensures scanner.Some? ==> scanner.value.client == ClientSettingsOf(cfg)
  {
    var extentions := GetExtentionList(cfg.extentions, cfg.defaultExtentions, defaultLines);
    var ignoreCodes := IgnoreCodes(cfg.ignoreCodes);
    var client := MakeHttpClient(cfg, backendReady);
    if client.None? {
      return None;
    }
    scanner := Some(HttpDirScanner(commonArgs, cfg, client.value, extentions, ignoreCodes));
  }

  /** The configuration the workers share. */
  function WorkerConfigOf(s: HttpDirScanner): WorkerConfig {
    WorkerConfig(s.cfg.target, s.extentions, s.ignoreCodes, s.cfg.expandUrlLog, s.cfg.printFails)
  }

  // ---------------------------------------------------------------------------
  // The feeder loop

  /** One `read_line` on the word list: the text read (newline included), or an error.
      A read that returns 0 bytes is `Line("")`; reads past the end of `stream` are such. */
  datatype ReadResult = Line(text: string) | ReadError

  function ReadAt(stream: seq<ReadResult>, i: nat): ReadResult {
    if i < |stream| then stream[i] else Line("")
  }

  datatype FeedEnd = Exhausted | TimedOut | ReadFailed

  /** The words sent, in order, and why the loop ended. */
  datatype FeedResult = FeedResult(sent: seq<string>, end: FeedEnd)

  /** The feeder from the `i`-th read on; `sendTimesOut(i)` says the i-th send did not
      find a receiver within the timeout. An empty text is a read of 0 bytes. */
  function FeedFrom(stream: seq<ReadResult>, sendTimesOut: nat -> bool, i: nat): FeedResult
    decreases |stream| - i
  {
    if i >= |stream| then FeedResult([], Exhausted)
    else match stream[i]
      case ReadError => FeedResult([], ReadFailed)
      case Line(text) =>
        if text == [] then FeedResult([], Exhausted)
        else if sendTimesOut(i) then FeedResult([], TimedOut)
        else Prefixed([Trim(text)], FeedFrom(stream, sendTimesOut, i + 1))
  }

  function Feed(stream: seq<ReadResult>, sendTimesOut: nat -> bool): FeedResult {
    FeedFrom(stream, sendTimesOut, 0)
  }

  /** A feed result with `sent` sent before it. */
  function Prefixed(sent: seq<string>, f: FeedResult): FeedResult {
    FeedResult(sent + f.sent, f.end)
  }

  lemma PrefixedTwice(a: seq<string>, b: seq<string>, f: FeedResult)
    ensures Prefixed(a, Prefixed(b, f)) == Prefixed(a + b, f)
  {
    assert a + (b + f.sent) == (a + b) + f.sent;
  }

  /** The read at `i` has text, and its send went through. */
  predicate Delivered(stream: seq<ReadResult>, sendTimesOut: nat -> bool, i: nat) {
    i < |stream| && stream[i].Line? && stream[i].text != [] && !sendTimesOut(i)
  }

  /** The word the read at `j` sends: its text, trimmed. */
  function LineWord(stream: seq<ReadResult>, j: nat): string {
    if j < |stream| && stream[j].Line? then Trim(stream[j].text) else ""
  }

  /** `sent` are the trimmed texts of the delivered reads from `i` on. */
  predicate SentLines(stream: seq<ReadResult>, sendTimesOut: nat -> bool, i: nat, sent: seq<string>) {
    forall j :: i <= j < i + |sent| ==> Delivered(stream, sendTimesOut, j) && sent[j - i] == LineWord(stream, j)
  }

  /** Why the loop ended, judged by the read at `j`. */
  predicate EndsAt(stream: seq<ReadResult>, sendTimesOut: nat -> bool, j: nat, end: FeedEnd) {
    && (end == Exhausted <==> ReadAt(stream, j) == Line(""))
    && (end == TimedOut <==> ReadAt(stream, j).Line? && ReadAt(stream, j).text != [] && sendTimesOut(j))
    && (end == ReadFailed <==> ReadAt(stream, j) == ReadError)
  }

  /** The feeder's result read position by position: the n words sent are the trimmed
      texts of the next n reads, each non-empty and each sent in time; the read after
      them ended the loop at end of input, with a timed-out send, or with an error. */
  predicate FeedCharacterised(stream: seq<ReadResult>, sendTimesOut: nat -> bool, i: nat, f: FeedResult) {
    && i + |f.sent| <= |stream|
    && SentLines(stream, sendTimesOut, i, f.sent)
    && EndsAt(stream, sendTimesOut, i + |f.sent|, f.end)
  }

  lemma SentLinesStep(stream: seq<ReadResult>, sendTimesOut: nat -> bool, i: nat, rest: seq<string>)
    requires Delivered(stream, sendTimesOut, i)
    requires SentLines(stream, sendTimesOut, i + 1, rest)
    ensures SentLines(stream, sendTimesOut, i, [LineWord(stream, i)] + rest)
  {
    var sent := [LineWord(stream, i)] + rest;
    forall j | i <= j < i + |sent|
      ensures Delivered(stream, sendTimesOut, j) && sent[j - i] == LineWord(stream, j)
    {
      if j > i {
        assert sent[j - i] == rest[j - (i + 1)];
      }
    }
  }

  lemma {:induction false} FeedFromCharacterised(stream: seq<ReadResult>, sendTimesOut: nat -> bool, i: nat)
    requires i <= |stream|
    ensures FeedCharacterised(stream, sendTimesOut, i, FeedFrom(stream, sendTimesOut, i))
    decreases |stream| - i
  {
    if Delivered(stream, sendTimesOut, i) {
      var rest := FeedFrom(stream, sendTimesOut, i + 1);
      FeedFromCharacterised(stream, sendTimesOut, i + 1);
      SentLinesStep(stream, sendTimesOut, i, rest.sent);
      assert FeedFrom(stream, sendTimesOut, i) == Prefixed([LineWord(stream, i)], rest);
      assert i + (1 + |rest.sent|) == (i + 1) + |rest.sent|;
    }
  }

  /** Every read of more than 0 bytes sends its trimmed text (a blank line is sent as
      ""), in order; the loop stops at the first 0-byte read, at the first send that
      times out (no further line is read), or at the first read error. */
  lemma FeedSendsTrimmedLines(stream: seq<ReadResult>, sendTimesOut: nat -> bool)
    ensures FeedCharacterised(stream, sendTimesOut, 0, Feed(stream, sendTimesOut))
  {
    FeedFromCharacterised(stream, sendTimesOut, 0);
  }

  /** One step of the feeder, by what the read at `i` gives. */
  lemma FeedAt(stream: seq<ReadResult>, sendTimesOut: nat -> bool, i: nat)
    requires i <= |stream|
    ensures ReadAt(stream, i) == ReadError ==> FeedFrom(stream, sendTimesOut, i) == FeedResult([], ReadFailed)
    ensures ReadAt(stream, i) == Line("") ==> FeedFrom(stream, sendTimesOut, i) == FeedResult([], Exhausted)
    ensures ReadAt(stream, i).Line? && ReadAt(stream, i).text != [] && sendTimesOut(i) ==>
      FeedFrom(stream, sendTimesOut, i) == FeedResult([], TimedOut)
    ensures Delivered(stream, sendTimesOut, i) ==>
      FeedFrom(stream, sendTimesOut, i) == Prefixed([Trim(stream[i].text)], FeedFrom(stream, sendTimesOut, i + 1))
  {
  }

  /** `read_line` returns 0 bytes exactly for an empty text. */
  lemma Utf8EmptyIff(s: string)
    ensures |Utf8(s)| <= 0 <==> s == []
  {
  }

  /** The `loop` of `dispatch_workers`: a fresh `line` each time, stop on a 0-byte read,
      send the trimmed text with a timeout, stop with a warning if it times out. */
  method FeedWords(stream: seq<ReadResult>, sendTimesOut: nat -> bool) returns (f: FeedResult)
    ensures f == Feed(stream, sendTimesOut)
  {
    var sent: seq<string> := [];
    var i := 0;
    while true
      invariant i <= |stream|
      invariant Feed(stream, sendTimesOut) == Prefixed(sent, FeedFrom(stream, sendTimesOut, i))
      decreases |stream| - i
    {
      FeedAt(stream, sendTimesOut, i);
      var line := ReadAt(stream, i);
      if line.ReadError? {
        assert sent + [] == sent;
        return FeedResult(sent, ReadFailed);
      }
      Utf8EmptyIff(line.text);
      if |Utf8(line.text)| <= 0 {
        assert sent + [] == sent;
        break;
      }
      var word := Trim(line.text);
      if sendTimesOut(i) {
        assert sent + [] == sent;
        return FeedResult(sent, TimedOut);
      }
      PrefixedTwice(sent, [word], FeedFrom(stream, sendTimesOut, i + 1));
      sent := sent + [word];
      i := i + 1;
    }
    f := FeedResult(sent, Exhausted);
  }

  // ---------------------------------------------------------------------------
  // Dispatching

  datatype ScanError = WordListUnavailable | LineReadFailed | WorkerJoinFailed(position: nat)

  /** How a scan ends: `Ok(())`, an `Err`, or never, because `finish_and_wait` awaits
      the worker at `position` forever. */
  datatype Outcome = Completed | Aborted(error: ScanError) | NeverReturns(position: nat)

  /** How worker `k`'s task ends once the feeder is done: a panic is reported as such;
      otherwise the worker's loop returns exactly when the sending side has been dropped
      (see `Worker.ExecuteEndsIffSenderDropped`) and waits in `recv` forever if not. */
  function WorkerEnds(senderDropped: bool, panics: nat -> bool): nat -> TaskEnd {
    (k: nat) => if panics(k) then Panicked else if senderDropped then Returned else Pending
  }

  /** What `dispatch_workers` returns, given whether the sender is dropped before the
      join, the worker count, how the feeder ended and which worker tasks panic. */
  function DispatchOutcome(senderDropped: bool, threads: nat, feedEnd: FeedEnd, panics: nat -> bool): Outcome {
    if feedEnd == ReadFailed then Aborted(LineReadFailed)
    else match JoinInOrder(threads, WorkerEnds(senderDropped, panics))
      case AllJoined => Completed
      case JoinFailed(p) => Aborted(WorkerJoinFailed(p))
      case WaitsForever(p) => NeverReturns(p)
  }

  /** The body of `dispatch_workers`: start the pool, run the feeder, and unless a read
      failed, join the workers, with the sender still alive or dropped first. */
  method DispatchWith(s: HttpDirScanner, threads: nat, stream: seq<ReadResult>, sendTimesOut: nat -> bool,
                  panics: nat -> bool, dropSenderBeforeJoin: bool)
    returns (sent: seq<string>, outcome: Outcome)
    ensures sent == Feed(stream, sendTimesOut).sent
    ensures outcome == DispatchOutcome(dropSenderBeforeJoin, threads, Feed(stream, sendTimesOut).end, panics)
  {
    var dispatcher := new Dispatcher<WorkerConfig>(WorkerConfigOf(s));
    dispatcher.StartWorkers(threads);
    var feed := FeedWords(stream, sendTimesOut);
    sent := feed.sent;
    if feed.end == ReadFailed {
      return sent, Aborted(LineReadFailed);
    }
    var joined := dispatcher.FinishAndWait(WorkerEnds(dropSenderBeforeJoin, panics));
    match joined
    case AllJoined => outcome := Completed;
    case JoinFailed(p) => outcome := Aborted(WorkerJoinFailed(p));
    case WaitsForever(p) => outcome := NeverReturns(p);
  }

  /** `dispatch_workers` as written: the sender `tx` is still in scope when
      `finish_and_wait` runs. */
  method DispatchWorkersAsWritten(s: HttpDirScanner, threads: nat, stream: seq<ReadResult>,
                                  sendTimesOut: nat -> bool, panics: nat -> bool)
    returns (sent: seq<string>, outcome: Outcome)
    ensures sent == Feed(stream, sendTimesOut).sent
    ensures outcome == DispatchOutcome(false, threads, Feed(stream, sendTimesOut).end, panics)
  {
    sent, outcome := DispatchWith(s, threads, stream, sendTimesOut, panics, false);
  }

  /** `dispatch_workers` with the sender dropped once the feeder loop is over, so that
      every worker sees the end of the stream. */
  method DispatchWorkers(s: HttpDirScanner, threads: nat, stream: seq<ReadResult>,
                         sendTimesOut: nat -> bool, panics: nat -> bool)
    returns (sent: seq<string>, outcome: Outcome)
    ensures sent == Feed(stream, sendTimesOut).sent
    ensures outcome == DispatchOutcome(true, threads, Feed(stream, sendTimesOut).end, panics)
  {
    sent, outcome := DispatchWith(s, threads, stream, sendTimesOut, panics, true);
  }

  /** As written, a scan whose word list is read without error never returns unless the
      first worker panics: the first worker keeps waiting for words. */
  lemma AsWrittenNeverReturns(threads: nat, feedEnd: FeedEnd, panics: nat -> bool)
    requires threads >= 1 && feedEnd != ReadFailed && !panics(0)
    ensures DispatchOutcome(false, threads, feedEnd, panics) == NeverReturns(0)
  {
    JoinFirstFailure(threads, WorkerEnds(false, panics), 0);
  }

  /** With the sender dropped, the join always comes to a result: `Ok(())` exactly when
      no worker panics, otherwise the `Err` of the first worker that did. */
  lemma DispatchReturns(threads: nat, feedEnd: FeedEnd, panics: nat -> bool)
    requires feedEnd != ReadFailed
    ensures !DispatchOutcome(true, threads, feedEnd, panics).NeverReturns?
    ensures DispatchOutcome(true, threads, feedEnd, panics) == Completed
        <==> forall k :: 0 <= k < threads ==> !panics(k)
    ensures DispatchOutcome(true, threads, feedEnd, panics).Aborted? ==>
      var p := DispatchOutcome(true, threads, feedEnd, panics).error.position;
      p < threads && panics(p) && forall k :: 0 <= k < p ==> !panics(k)
  {
    var ends := WorkerEnds(true, panics);
    JoinInOrderCharacterised(threads, ends);
    assert forall k :: ends(k) == Returned <==> !panics(k);
  }

  /** `run` as written: clamp the thread count, open the word list (`None` when it
      cannot be opened), and dispatch with the sender still alive during the join. */
  method RunAsWritten(s: HttpDirScanner, wordList: Option<seq<ReadResult>>, sendTimesOut: nat -> bool, panics: nat -> bool)
    returns (sent: seq<string>, outcome: Outcome)
    ensures wordList.None? ==> sent == [] && outcome == Aborted(WordListUnavailable)
    ensures wordList.Some? ==> sent == Feed(wordList.value, sendTimesOut).sent
    ensures wordList.Some? ==>
      outcome == DispatchOutcome(false, ClampThreads(s.commonArgs.threads), Feed(wordList.value, sendTimesOut).end, panics)
  {
    var threads := ClampThreads(s.commonArgs.threads);
    if wordList.None? {
      return [], Aborted(WordListUnavailable);
    }
    sent, outcome := DispatchWorkersAsWritten(s, threads, wordList.value, sendTimesOut, panics);
  }

  /** As written, a scan over a word list that is read to its end without error never
      returns unless the first worker panics. */
  lemma RunAsWrittenNeverReturns(s: HttpDirScanner, stream: seq<ReadResult>, sendTimesOut: nat -> bool, panics: nat -> bool)
    requires Feed(stream, sendTimesOut).end != ReadFailed && !panics(0)
    ensures DispatchOutcome(false, ClampThreads(s.commonArgs.threads), Feed(stream, sendTimesOut).end, panics) == NeverReturns(0)
  {
    AsWrittenNeverReturns(ClampThreads(s.commonArgs.threads), Feed(stream, sendTimesOut).end, panics);
  }

  /** `run` with the sender dropped after the feeder loop: clamp the thread count, open the word list (`None` when it cannot be
      opened), and dispatch with the sender dropped after the feeder loop. */
  method Run(s: HttpDirScanner, wordList: Option<seq<ReadResult>>, sendTimesOut: nat -> bool, panics: nat -> bool)
    returns (sent: seq<string>, outcome: Outcome)
    ensures wordList.None? ==> sent == [] && outcome == Aborted(WordListUnavailable)
    ensures wordList.Some? ==> sent == Feed(wordList.value, sendTimesOut).sent
    ensures wordList.Some? ==>
      outcome == DispatchOutcome(true, ClampThreads(s.commonArgs.threads), Feed(wordList.value, sendTimesOut).end, panics)
  {
    var threads := ClampThreads(s.commonArgs.threads);
    if wordList.None? {
      return [], Aborted(WordListUnavailable);
    }
    sent, outcome := DispatchWorkers(s, threads, wordList.value, sendTimesOut, panics);
  }
}
