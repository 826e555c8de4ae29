/** The older, self-contained httpdir of src/httpdir.rs. It shares the probe's
    classification with the newer worker. Its suffixes use the extensions untrimmed, but
    its own `new` stores them trimmed, so that never shows. It differs from the newer
    scanner in four observable ways: there is no default extension list, the thread
    count has a floor of 1 but no ceiling, no user agent is set unless one is given,
    and the sender is dropped before the join. */
module LegacyHttpDir {
  import opened Common
  import opened Text
  import opened Net
  import opened Utils
  import opened Worker
  import opened ClientBuilder
  import opened Dispatch
  import Scanner

  // ---------------------------------------------------------------------------
  // The worker

  /** The older `Worker`: an `i32` id and the shared configuration. */
  datatype LegacyWorker = LegacyWorker(id: I32, config: Shared<WorkerConfig>)

  /** The older suffixes: the word, then the word followed by each extension as stored. */
  function LegacySuffixes(word: string, extentions: seq<string>): (r: seq<string>)
    ensures |r| == 1 + |extentions| && r[0] == word
    ensures forall i :: 0 <= i < |extentions| ==> r[i + 1] == word + extentions[i]
  {
    [word] + seq(|extentions|, i requires 0 <= i < |extentions| => word + extentions[i])
  }

  /** With extensions that carry no surrounding whitespace the two versions build the
      same suffixes. */
  lemma LegacySuffixesOfTrimmed(word: string, extentions: seq<string>)
    requires forall i :: 0 <= i < |extentions| ==> IsTrimmed(extentions[i])
    ensures LegacySuffixes(word, extentions) == Suffixes(word, extentions)
  {
    forall i | 0 <= i < |extentions| ensures Trim(extentions[i]) == extentions[i] {
      TrimOfTrimmed(extentions[i]);
    }
  }

  /** With a padded extension they differ: the older version requests "a .php". */
  lemma LegacySuffixesKeepPadding()
    ensures LegacySuffixes("a", [" .php"])[1] == "a .php"
    ensures Suffixes("a", [" .php"])[1] == "a.php"
  {
    var e := " .php";
    var t := ".php";
    assert e[0] == ' ' && e[1..] == t;
    TrimStartOfTrimmed(t);
    assert TrimStart(e) == t;
    TrimEndOfTrimmed(t);
    assert Trim(e) == t;
    var r := Suffixes("a", [e]);
    assert r[1] == "a" + Trim(e);
  }

  /** The older `process_word`. */
  function LegacyProcessWordSpec(cfg: WorkerConfig, http: Http, word: string): WordReport {
    match http.join(cfg.target, word)
    case None => WordReport(false, [InvalidWord(word)], [])
    case Some(base) => ScanSuffixes(cfg, http, base, LegacySuffixes(word, cfg.extentions))
  }

  /** With trimmed extensions the older probe behaves as the newer one: same requests,
      same log lines, same result. */
  lemma LegacyProbeAgrees(cfg: WorkerConfig, http: Http, word: string)
    requires forall i :: 0 <= i < |cfg.extentions| ==> IsTrimmed(cfg.extentions[i])
    ensures LegacyProcessWordSpec(cfg, http, word) == ProcessWordSpec(cfg, http, word)
  {
    LegacySuffixesOfTrimmed(word, cfg.extentions);
  }

  /** `Worker::process_word`: the same suffix loop as the newer worker. */
  method ProcessWord(w: LegacyWorker, http: Http, word: string) returns (report: WordReport)
    ensures report == LegacyProcessWordSpec(w.config.value, http, word)
  {
    var cfg := w.config.value;
    var base := http.join(cfg.target, word);
    if base.None? {
      return WordReport(false, [InvalidWord(word)], []);
    }
    report := ProbeSuffixes(cfg, http, base.value, LegacySuffixes(word, cfg.extentions));
  }

  /** The log of an older worker that processed `words` in order. */
  function LegacyLog(cfg: WorkerConfig, http: Http, words: seq<string>): seq<LogRecord> {
    if words == [] then []
    else LegacyLog(cfg, http, words[..|words| - 1]) + LegacyProcessWordSpec(cfg, http, words[|words| - 1]).log
  }

  /** `Worker::start`: the receive loop, which ends at the first `None`. */
  method Start(w: LegacyWorker, http: Http, received: seq<Option<string>>)
    returns (processed: seq<string>, log: seq<LogRecord>, ended: bool)
    ensures processed == WordsUntilEnd(received)
    ensures log == LegacyLog(w.config.value, http, processed)
    ensures ended <==> None in received
  {
    processed, log := [], [];
    ended := false;
    var i := 0;
    while i < |received|
      invariant 0 <= i <= |received| && |processed| == i
      invariant forall j :: 0 <= j < i ==> received[j] == Some(processed[j])
      invariant log == LegacyLog(w.config.value, http, processed)
    {
      var next := received[i];
      if next.None? {
        ended := true;
        break;
      }
      var word := next.value;
      var report := ProcessWord(w, http, word);
      assert (processed + [word])[..|processed|] == processed;
      processed := processed + [word];
      log := log + report.log;
      i := i + 1;
    }
    WordsUntilEndUnique(received, processed);
    if !ended {
      assert forall j :: 0 <= j < |received| ==> received[j] == Some(processed[j]);
    }
  }

  // ---------------------------------------------------------------------------
  // The scanner

  /** The older `HttpDirConfig`: no default-extension flag. */
  datatype LegacyConfig = LegacyConfig(
    target: Url,
    gzip: bool,
    timeout: I32,
    username: Option<string>,
    password: Option<string>,
    userAgent: Option<string>,
    expandUrlLog: bool,
    extentions: Option<seq<string>>,
    ignoreCodes: Option<seq<string>>,
    printFails: bool)

  /** The older extension list: the user extensions normalised, nothing appended. */
  function LegacyExtensions(input: Option<seq<string>>): (r: seq<string>)
    ensures |r| == |UserExtensions(input)|
  {
    var user := UserExtensions(input);
    seq(|user|, i requires 0 <= i < |user| => NormaliseExtension(user[i]))
  }

  /** It is the newer list with the default flag off. */
  lemma LegacyExtensionsWithoutDefaults(input: Option<seq<string>>, defaultLines: seq<string>)
    ensures LegacyExtensions(input) == ExtensionList(input, false, defaultLines)
  {
  }

  /** Extensions built by the older `new` are trimmed, so its missing trim when building
      suffixes never shows: both versions probe the same suffixes. */
  lemma LegacySuffixesOfOwnExtensions(word: string, input: Option<seq<string>>)
    ensures LegacySuffixes(word, LegacyExtensions(input)) == Suffixes(word, LegacyExtensions(input))
  {
    LegacySuffixesOfTrimmed(word, LegacyExtensions(input));
  }

  /** The older thread count: at least 1, no upper bound. */
  function LegacyThreads(threads: U16): (n: nat)
    ensures n >= 1
    ensures threads >= 1 ==> n == threads
    ensures threads < 1 ==> n == 1
  {
    if threads < 1 then 1 else threads
  }

  /** The two versions agree up to 300 threads; above it only the older one goes higher. */
  lemma ThreadsVersusClamp(threads: U16)
    ensures threads <= 300 ==> LegacyThreads(threads) == Scanner.ClampThreads(threads)
    ensures threads > 300 ==> LegacyThreads(threads) > Scanner.ClampThreads(threads)
  {
  }

  /** The older `make_http_client`: the `authorization` header when a username is given,
      the keep-on-target redirect rule with a cap of 5, gzip, a timeout only when
      positive, and a user agent only when one is given. */
  function LegacyMakeHttpClient(cfg: LegacyConfig, backendReady: bool): (client: Option<ClientSettings>)
    ensures client.Some? <==> backendReady
    ensures client.Some? ==> client.value.defaultHeaders == Scanner.AuthHeaders(cfg.username, cfg.password)
    ensures client.Some? ==> client.value.redirect == KeepOnDomain(cfg.target.host, Scanner.MaxRedirects)
    ensures client.Some? ==> (client.value.timeoutMs.Some? <==> cfg.timeout > 0)
    ensures client.Some? ==> client.value.userAgent == cfg.userAgent
    ensures client.Some? ==> client.value.gzip == cfg.gzip
    ensures client.Some? && client.value.timeoutMs.Some? ==> client.value.timeoutMs.value == cfg.timeout
  {
    if !backendReady then None
    else
      Some(ClientSettings(
        Scanner.AuthHeaders(cfg.username, cfg.password),
        cfg.gzip,
        KeepOnDomain(cfg.target.host, 5),
        cfg.userAgent,
        if cfg.timeout > 0 then Some(cfg.timeout as nat) else None))
  }

  /** The older `HttpDirScanner`. */
  datatype LegacyScanner = LegacyScanner(
    commonArgs: Scanner.CommonArgs,
    cfg: LegacyConfig,
    client: ClientSettings,
    extentions: seq<string>,
    ignoreCodes: seq<U16>)

  /** The older `HttpDirScanner::new`; `None` when the client cannot be built. */
  function LegacyNew(commonArgs: Scanner.CommonArgs, cfg: LegacyConfig, backendReady: bool): (scanner: Option<LegacyScanner>)
    ensures scanner.Some? <==> backendReady
    ensures scanner.Some? ==> scanner.value.commonArgs == commonArgs && scanner.value.cfg == cfg
    ensures scanner.Some? ==> scanner.value.client == LegacyMakeHttpClient(cfg, backendReady).value
    ensures scanner.Some? ==> scanner.value.extentions == ExtensionList(cfg.extentions, false, [])
    ensures scanner.Some? ==> scanner.value.ignoreCodes == Scanner.IgnoreCodes(cfg.ignoreCodes)
  {
    match LegacyMakeHttpClient(cfg, backendReady)
    case None => None
    case Some(client) =>
      LegacyExtensionsWithoutDefaults(cfg.extentions, []);
      Some(LegacyScanner(commonArgs, cfg, client, LegacyExtensions(cfg.extentions), Scanner.IgnoreCodes(cfg.ignoreCodes)))
  }

  function LegacyWorkerConfig(s: LegacyScanner): WorkerConfig {
    WorkerConfig(s.cfg.target, s.extentions, s.ignoreCodes, s.cfg.expandUrlLog, s.cfg.printFails)
  }

  /** The spawn loop of `run`: one handle per worker, ids in order, one shared config. */
  method SpawnWorkers(config: Shared<WorkerConfig>, threads: nat) returns (workers: seq<Handle<WorkerConfig>>)
    ensures workers == StartedHandles(config, threads)
  {
    workers := [];
    for i := 0 to threads
      invariant workers == StartedHandles(config, i)
    {
      var worker := LegacyWorker(UsizeAsI32(i), config);
      var task := Handle(i, worker.config);
      assert StartedHandles(config, i + 1) == StartedHandles(config, i) + [task];
      workers := workers + [task];
    }
  }

  /** The `while` feeder of `run`: `read_line` appends to the one `line` buffer, which
      is cleared after each send. */
  method FeedLines(stream: seq<Scanner.ReadResult>, sendTimesOut: nat -> bool) returns (f: Scanner.FeedResult)
    ensures f == Scanner.Feed(stream, sendTimesOut)
  {
    var sent: seq<string> := [];
    var line: string := [];
    var i := 0;
    while true
      invariant i <= |stream| && line == []
      invariant Scanner.Feed(stream, sendTimesOut) == Scanner.Prefixed(sent, Scanner.FeedFrom(stream, sendTimesOut, i))
      decreases |stream| - i
    {
      Scanner.FeedAt(stream, sendTimesOut, i);
      var read := Scanner.ReadAt(stream, i);
      if read.ReadError? {
        assert sent + [] == sent;
        return Scanner.FeedResult(sent, Scanner.ReadFailed);
      }
      line := line + read.text;
      assert line == read.text;
      Scanner.Utf8EmptyIff(read.text);
      if !(|Utf8(read.text)| > 0) {
        assert sent + [] == sent;
        break;
      }
      var word := Trim(line);
      if sendTimesOut(i) {
        assert sent + [] == sent;
        return Scanner.FeedResult(sent, Scanner.TimedOut);
      }
      Scanner.PrefixedTwice(sent, [word], Scanner.FeedFrom(stream, sendTimesOut, i + 1));
      sent := sent + [word];
      line := [];
      i := i + 1;
    }
    f := Scanner.FeedResult(sent, Scanner.Exhausted);
  }

  /** The join loop `for w in workers { w.await? }`. */
  method JoinAll(workers: seq<Handle<WorkerConfig>>, ends: nat -> TaskEnd) returns (r: JoinResult)
    ensures r == JoinInOrder(|workers|, ends)
  {
    for i := 0 to |workers|
      invariant forall j :: 0 <= j < i ==> ends(j) == Returned
    {
      match ends(i)
      case Returned =>
      case Panicked =>
        JoinFirstFailure(|workers|, ends, i);
        return JoinFailed(i);
      case Pending =>
        JoinFirstFailure(|workers|, ends, i);
        return WaitsForever(i);
    }
    JoinInOrderCharacterised(|workers|, ends);
    r := AllJoined;
  }

  /** The older `run`: the sender lives in an inner block that ends before the join
      loop, so every worker sees the end of the stream. */
  method Run(s: LegacyScanner, wordList: Option<seq<Scanner.ReadResult>>, sendTimesOut: nat -> bool, panics: nat -> bool)
    returns (sent: seq<string>, outcome: Scanner.Outcome)
    ensures wordList.None? ==> sent == [] && outcome == Scanner.Aborted(Scanner.WordListUnavailable)
    ensures wordList.Some? ==> sent == Scanner.Feed(wordList.value, sendTimesOut).sent
    ensures wordList.Some? ==>
      outcome == Scanner.DispatchOutcome(true, LegacyThreads(s.commonArgs.threads),
                                         Scanner.Feed(wordList.value, sendTimesOut).end, panics)
  {
    var threads := LegacyThreads(s.commonArgs.threads);
    if wordList.None? {
      return [], Scanner.Aborted(Scanner.WordListUnavailable);
    }
    var config := new Shared(LegacyWorkerConfig(s));
    var workers := SpawnWorkers(config, threads);
    var feed := FeedLines(wordList.value, sendTimesOut);
    sent := feed.sent;
    if feed.end == Scanner.ReadFailed {
      return sent, Scanner.Aborted(Scanner.LineReadFailed);
    }
    var joined := JoinAll(workers, Scanner.WorkerEnds(true, panics));
    match joined
    case AllJoined => outcome := Scanner.Completed;
    case JoinFailed(p) => outcome := Scanner.Aborted(Scanner.WorkerJoinFailed(p));
    case WaitsForever(p) => outcome := Scanner.NeverReturns(p);
  }
}
