/** The per-word probe of src/httpdir/worker.rs: suffix fan-out, early abort,
    and classification of each response into at most one log record. */
module Worker {
  import opened Common
  import opened Text
  import opened Net

  /** What every worker reads, shared and never changed. The channel receiver and the
      HTTP client are not fields here: they are the `received` and `http` parameters. */
  datatype WorkerConfig = WorkerConfig(
    target: Url,
    extentions: seq<string>,
    ignoreCodes: seq<U16>,
    expandUrlLog: bool,
    printFails: bool)

  datatype HttpDirWorker = HttpDirWorker(id: I32, config: Shared<WorkerConfig>)

  /** `HttpDirWorker::new`: the id is the `usize` ordinal cast to `i32`. */
  function New(id: nat, cfg: Shared<WorkerConfig>): (w: HttpDirWorker)
    ensures w.config == cfg
    ensures id < 0x8000_0000 ==> w.id == id
  {
    HttpDirWorker(UsizeAsI32(id), cfg)
  }

  datatype Level = Error | Warn | Info

  /** The log lines the probe emits (debug and trace lines are not modelled). */
  datatype LogRecord =
    | InvalidWord(word: string)
    | InvalidExtention(suffix: string)
    | RequestFailed
    | Found(status: U16, target: string)
    | Failed(status: U16, target: string)
  {
    function Severity(): Level {
      match this
      case InvalidWord(_) => Error
      case InvalidExtention(_) => Error
      case RequestFailed => Warn
      case Found(_, _) => Info
      case Failed(_, _) => Warn
    }

    function Message(): string {
      match this
      case InvalidWord(w) => "Invalid word for a url: " + w
      case InvalidExtention(s) => "Invalid extention for a url: " + s
      case RequestFailed => "Error while performing request.."
      case Found(code, t) => "OK " + Decimal(code) + " " + t
      case Failed(code, t) => "ERR " + Decimal(code) + " " + t
    }
  }

  /** The candidate suffixes of a word: the word itself, then the word followed by each
      configured extension, trimmed at the point of use, in configured order. */
  function Suffixes(word: string, extentions: seq<string>): (r: seq<string>)
    ensures |r| == 1 + |extentions| && r[0] == word
    ensures forall i :: 0 <= i < |extentions| ==> r[i + 1] == word + Trim(extentions[i])
  {
    [word] + seq(|extentions|, i requires 0 <= i < |extentions| => word + Trim(extentions[i]))
  }

  /** What a log line names: the response URL, or "/" and the suffix. */
  function LogTarget(cfg: WorkerConfig, suffix: string, resp: Response): string {
    if cfg.expandUrlLog then resp.url.href else "/" + suffix
  }

  /** The log lines of one answered request. */
  function ResponseLog(cfg: WorkerConfig, suffix: string, resp: Response): seq<LogRecord> {
    if resp.status in cfg.ignoreCodes then []
    else if IsSuccess(resp.status) then [Found(resp.status, LogTarget(cfg, suffix, resp))]
    else if cfg.printFails then [Failed(resp.status, LogTarget(cfg, suffix, resp))]
    else []
  }

  /** The outcome of probing one word: `Ok(())` or `Err(())`, the lines logged,
      and the URLs that were requested, in order. */
  datatype WordReport = WordReport(ok: bool, log: seq<LogRecord>, requested: seq<Url>)

  /** The suffix loop: a failed join or a failed request logs one line and abandons
      the remaining suffixes; an answered request logs as `ResponseLog` says. */
  function ScanSuffixes(cfg: WorkerConfig, http: Http, base: Url, suffixes: seq<string>): WordReport
    decreases |suffixes|
  {
    if suffixes == [] then WordReport(true, [], [])
    else match http.join(base, suffixes[0])
      case None => WordReport(false, [InvalidExtention(suffixes[0])], [])
      case Some(url) =>
        match http.get(url)
        case None => WordReport(false, [RequestFailed], [url])
        case Some(resp) =>
          var rest := ScanSuffixes(cfg, http, base, suffixes[1..]);
          WordReport(rest.ok, ResponseLog(cfg, suffixes[0], resp) + rest.log, [url] + rest.requested)
  }

  /** `process_word`: join the word onto the target, then scan its suffixes. */
  function ProcessWordSpec(cfg: WorkerConfig, http: Http, word: string): WordReport {
    match http.join(cfg.target, word)
    case None => WordReport(false, [InvalidWord(word)], [])
    case Some(base) => ScanSuffixes(cfg, http, base, Suffixes(word, cfg.extentions))
  }

  /** A report whose log and requests come after the given ones. */
  function After(log: seq<LogRecord>, requested: seq<Url>, r: WordReport): WordReport {
    WordReport(r.ok, log + r.log, requested + r.requested)
  }

  /** One step of the scan, seen from position `i`. */
  lemma ScanAt(cfg: WorkerConfig, http: Http, base: Url, suffixes: seq<string>, i: nat)
    requires i < |suffixes|
    ensures ScanSuffixes(cfg, http, base, suffixes[i..])
         == match http.join(base, suffixes[i])
            case None => WordReport(false, [InvalidExtention(suffixes[i])], [])
            case Some(url) =>
              match http.get(url)
              case None => WordReport(false, [RequestFailed], [url])
              case Some(resp) =>
                After(ResponseLog(cfg, suffixes[i], resp), [url], ScanSuffixes(cfg, http, base, suffixes[i + 1..]))
  {
    assert suffixes[i..][0] == suffixes[i] && suffixes[i..][1..] == suffixes[i + 1..];
  }

  lemma AfterAfter(l1: seq<LogRecord>, q1: seq<Url>, l2: seq<LogRecord>, q2: seq<Url>, r: WordReport)
    ensures After(l1, q1, After(l2, q2, r)) == After(l1 + l2, q1 + q2, r)
  {
    assert l1 + (l2 + r.log) == (l1 + l2) + r.log;
    assert q1 + (q2 + r.requested) == (q1 + q2) + r.requested;
  }

  /** The `for suffix in ...` loop of `process_word`. */
  method ProbeSuffixes(cfg: WorkerConfig, http: Http, base: Url, suffixes: seq<string>)
    returns (report: WordReport)
    ensures report == ScanSuffixes(cfg, http, base, suffixes)
  {
    var log: seq<LogRecord> := [];
    var requested: seq<Url> := [];
    var i := 0;
    while i < |suffixes|
      invariant 0 <= i <= |suffixes|
      invariant ScanSuffixes(cfg, http, base, suffixes)
             == After(log, requested, ScanSuffixes(cfg, http, base, suffixes[i..]))
    {
      var suffix := suffixes[i];
      ScanAt(cfg, http, base, suffixes, i);
      var joined := http.join(base, suffix);
      if joined.None? {
        return WordReport(false, log + [InvalidExtention(suffix)], requested);
      }
      var url := joined.value;
      var answer := http.get(url);
      if answer.None? {
        return WordReport(false, log + [RequestFailed], requested + [url]);
      }
      var resp := answer.value;
      var lines := [];
      if resp.status in cfg.ignoreCodes {
      } else if IsSuccess(resp.status) {
        lines := [Found(resp.status, LogTarget(cfg, suffix, resp))];
      } else if cfg.printFails {
        lines := [Failed(resp.status, LogTarget(cfg, suffix, resp))];
      }
      assert lines == ResponseLog(cfg, suffix, resp);
      AfterAfter(log, requested, lines, [url], ScanSuffixes(cfg, http, base, suffixes[i + 1..]));
      log, requested := log + lines, requested + [url];
      i := i + 1;
    }
    assert suffixes[i..] == [];
    report := WordReport(true, log, requested);
  }

  /** `HttpDirWorker::process_word`. */
  method ProcessWord(w: HttpDirWorker, http: Http, word: string) returns (report: WordReport)
    ensures report == ProcessWordSpec(w.config.value, http, word)
  {
    var cfg := w.config.value;
    var base := http.join(cfg.target, word);
    if base.None? {
      return WordReport(false, [InvalidWord(word)], []);
    }
    report := ProbeSuffixes(cfg, http, base.value, Suffixes(word, cfg.extentions));
  }

  /** The words a receiver hands out before it first yields `None`. */
  function WordsUntilEnd(received: seq<Option<string>>): (words: seq<string>)
    ensures |words| <= |received|
    ensures forall j :: 0 <= j < |words| ==> received[j] == Some(words[j])
    ensures |words| < |received| ==> received[|words|] == None
  {
    if received == [] || received[0].None? then []
    else [received[0].value] + WordsUntilEnd(received[1..])
  }

  /** The log of a worker that processed `words` in order, whatever each word's result. */
  function ExecuteLog(cfg: WorkerConfig, http: Http, words: seq<string>): seq<LogRecord> {
    if words == [] then []
    else ExecuteLog(cfg, http, words[..|words| - 1]) + ProcessWordSpec(cfg, http, words[|words| - 1]).log
  }

  lemma {:induction false} WordsUntilEndUnique(received: seq<Option<string>>, words: seq<string>)
    requires |words| <= |received|
    requires forall j :: 0 <= j < |words| ==> received[j] == Some(words[j])
    requires |words| < |received| ==> received[|words|] == None
    ensures words == WordsUntilEnd(received)
  {
    if words != [] {
      WordsUntilEndUnique(received[1..], words[1..]);
    }
  }

  /** `HttpDirWorker::execute`: take words until the receiver yields `None`, probe each,
      discard each word's `Err`. `ended` says the loop met `None`; otherwise the worker
      took every word given and is still waiting in `recv`. */
  method Execute(w: HttpDirWorker, http: Http, received: seq<Option<string>>)
    returns (processed: seq<string>, log: seq<LogRecord>, ended: bool)
    ensures processed == WordsUntilEnd(received)
    ensures log == ExecuteLog(w.config.value, http, processed)
    ensures ended <==> None in received
  {
    processed, log := [], [];
    ended := false;
    var i := 0;
    while i < |received|
      invariant 0 <= i <= |received| && |processed| == i
      invariant forall j :: 0 <= j < i ==> received[j] == Some(processed[j])
      invariant log == ExecuteLog(w.config.value, http, processed)
    {
      var next := received[i];
      if next.None? {
        ended := true;
        break;
      }
      var word := next.value;
      var report := ProcessWord(w, http, word);
      assert (processed + [word])[..|processed|] == processed;
      processed := processed + [word];
      log := log + report.log;
      i := i + 1;
    }
    WordsUntilEndUnique(received, processed);
    if !ended {
      assert forall j :: 0 <= j < |received| ==> received[j] == Some(processed[j]);
    }
  }

  /** What a worker's receiver yields: the words delivered to it, then `None` once the
      sending side has been dropped. While a sender lives, `recv` waits for more. */
  function ReceiverView(delivered: seq<string>, senderDropped: bool): (r: seq<Option<string>>)
    ensures |r| == |delivered| + (if senderDropped then 1 else 0)
    ensures forall j :: 0 <= j < |delivered| ==> r[j] == Some(delivered[j])
    ensures senderDropped ==> r[|delivered|] == None
  {
    seq(|delivered|, j requires 0 <= j < |delivered| => Some(delivered[j]))
      + (if senderDropped then [None] else [])
  }

  /** A worker processes every word delivered to it, and its loop ends exactly when
      the sending side has been dropped. */
  lemma ExecuteEndsIffSenderDropped(delivered: seq<string>, senderDropped: bool)
    ensures WordsUntilEnd(ReceiverView(delivered, senderDropped)) == delivered
    ensures None in ReceiverView(delivered, senderDropped) <==> senderDropped
  {
    var view := ReceiverView(delivered, senderDropped);
    WordsUntilEndUnique(view, delivered);
    if None in view {
      var j :| 0 <= j < |view| && view[j] == None;
      assert j == |delivered|;
    }
  }

  // ---------------------------------------------------------------------------
  // Properties of the probe

  /** A suffix whose join and request both succeed. */
  predicate Responds(http: Http, base: Url, suffix: string) {
    http.join(base, suffix).Some? && http.get(http.join(base, suffix).value).Some?
  }

  /** How many leading suffixes get a response before the first failure. */
  function RespondedPrefix(http: Http, base: Url, suffixes: seq<string>): (n: nat)
    ensures n <= |suffixes|
    ensures forall i :: 0 <= i < n ==> Responds(http, base, suffixes[i])
    ensures n < |suffixes| ==> !Responds(http, base, suffixes[n])
  {
    if suffixes == [] || !Responds(http, base, suffixes[0]) then 0
    else 1 + RespondedPrefix(http, base, suffixes[1..])
  }

  /** A word whose join onto the target fails is abandoned before any request. */
  lemma InvalidWordMakesNoRequest(cfg: WorkerConfig, http: Http, word: string)
    requires http.join(cfg.target, word).None?
    ensures var r := ProcessWordSpec(cfg, http, word);
      !r.ok && r.requested == [] && r.log == [InvalidWord(word)]
  {
  }

  /** The scan is `Ok` exactly when every suffix gets a response. */
  lemma {:induction false} ScanOkIffAllRespond(cfg: WorkerConfig, http: Http, base: Url, suffixes: seq<string>)
    ensures ScanSuffixes(cfg, http, base, suffixes).ok <==> RespondedPrefix(http, base, suffixes) == |suffixes|
    decreases |suffixes|
  {
    if suffixes != [] && Responds(http, base, suffixes[0]) {
      ScanOkIffAllRespond(cfg, http, base, suffixes[1..]);
    }
  }

  /** The requests of a scan are the joins of the leading suffixes: those that got a
      response, and then the failing one when only its request failed. */
  lemma {:induction false} ScanRequests(cfg: WorkerConfig, http: Http, base: Url, suffixes: seq<string>)
    ensures var r, n := ScanSuffixes(cfg, http, base, suffixes), RespondedPrefix(http, base, suffixes);
      && |r.requested| == (if n < |suffixes| && http.join(base, suffixes[n]).Some? then n + 1 else n)
      && (forall k :: 0 <= k < |r.requested| ==> http.join(base, suffixes[k]) == Some(r.requested[k]))
    decreases |suffixes|
  {
    if suffixes != [] && Responds(http, base, suffixes[0]) {
      var tail := suffixes[1..];
      ScanRequests(cfg, http, base, tail);
      var r := ScanSuffixes(cfg, http, base, suffixes);
      var rt := ScanSuffixes(cfg, http, base, tail);
      assert r.requested == [http.join(base, suffixes[0]).value] + rt.requested;
      forall k | 0 <= k < |r.requested| ensures http.join(base, suffixes[k]) == Some(r.requested[k]) {
        if k > 0 {
          assert r.requested[k] == rt.requested[k - 1] && suffixes[k] == tail[k - 1];
        }
      }
    }
  }

  /** The log of a scan is the log of the suffixes that got a response, then one error
      line for the first failure, if there is one. */
  lemma {:induction false} ScanLog(cfg: WorkerConfig, http: Http, base: Url, suffixes: seq<string>)
    ensures var n := RespondedPrefix(http, base, suffixes);
      ScanSuffixes(cfg, http, base, suffixes).log
        == ScanSuffixes(cfg, http, base, suffixes[..n]).log
           + (if n == |suffixes| then []
              else if http.join(base, suffixes[n]).None? then [InvalidExtention(suffixes[n])]
              else [RequestFailed])
    decreases |suffixes|
  {
    var n := RespondedPrefix(http, base, suffixes);
    if suffixes != [] && Responds(http, base, suffixes[0]) {
      var tail := suffixes[1..];
      ScanLog(cfg, http, base, tail);
      assert suffixes[..n][0] == suffixes[0] && suffixes[..n][1..] == tail[..n - 1];
    } else {
      assert suffixes[..0] == [];
    }
  }

  /** The first failing suffix ends the scan: the result is `Err`, the requests are those of
      the suffixes before it (and its own when only the request failed), and the log is
      the log of the suffixes before it followed by one error line. With no failure the
      result is `Ok` and every suffix was requested. */
  lemma ScanStopsAtFirstFailure(cfg: WorkerConfig, http: Http, base: Url, suffixes: seq<string>)
    ensures var r, n := ScanSuffixes(cfg, http, base, suffixes), RespondedPrefix(http, base, suffixes);
      && (r.ok <==> n == |suffixes|)
      && |r.requested| == (if n < |suffixes| && http.join(base, suffixes[n]).Some? then n + 1 else n)
      && (forall k :: 0 <= k < |r.requested| ==> http.join(base, suffixes[k]) == Some(r.requested[k]))
      && r.log == ScanSuffixes(cfg, http, base, suffixes[..n]).log
                  + (if n == |suffixes| then []
                     else if http.join(base, suffixes[n]).None? then [InvalidExtention(suffixes[n])]
                     else [RequestFailed])
  {
    ScanOkIffAllRespond(cfg, http, base, suffixes);
    ScanRequests(cfg, http, base, suffixes);
    ScanLog(cfg, http, base, suffixes);
  }

  /** The line a record of an answered request may carry, given its configuration:
      `OK` only for a 2xx status, `ERR` only for any other status and only when
      `printFails` is set, and never for an ignored status. */
  predicate Classified(cfg: WorkerConfig, rec: LogRecord) {
    && (rec.Found? ==> IsSuccess(rec.status) && rec.status !in cfg.ignoreCodes)
    && (rec.Failed? ==> !IsSuccess(rec.status) && rec.status !in cfg.ignoreCodes && cfg.printFails)
  }

  predicate AllClassified(cfg: WorkerConfig, log: seq<LogRecord>) {
    forall k :: 0 <= k < |log| ==> Classified(cfg, log[k])
  }

  /** Every `OK` and `ERR` line of a scan is classified as `Classified` says. */
  lemma {:induction false} LogClassification(cfg: WorkerConfig, http: Http, base: Url, suffixes: seq<string>)
    ensures AllClassified(cfg, ScanSuffixes(cfg, http, base, suffixes).log)
    decreases |suffixes|
  {
    if suffixes != [] && Responds(http, base, suffixes[0]) {
      var tail := suffixes[1..];
      LogClassification(cfg, http, base, tail);
      var resp := http.get(http.join(base, suffixes[0]).value).value;
      var head := ResponseLog(cfg, suffixes[0], resp);
      var tailLog := ScanSuffixes(cfg, http, base, tail).log;
      var log := ScanSuffixes(cfg, http, base, suffixes).log;
      assert log == head + tailLog;
      forall k | 0 <= k < |log| ensures Classified(cfg, log[k]) {
        if k < |head| {
          assert Classified(cfg, head[k]);
        } else {
          assert Classified(cfg, tailLog[k - |head|]);
          assert log[k] == tailLog[k - |head|];
        }
      }
    }
  }

  /** The response to suffix `k`, which was joined and answered. */
  function AnswerAt(http: Http, base: Url, suffixes: seq<string>, k: nat): Response
    requires k < |suffixes| && Responds(http, base, suffixes[k])
  {
    http.get(http.join(base, suffixes[k]).value).value
  }

  /** `rec` is a line about the answer to suffix `k`: it carries that answer's status and,
      as target, the response URL when `expandUrlLog` is set, otherwise "/" and the suffix. */
  predicate LineOfAnswer(cfg: WorkerConfig, http: Http, base: Url, suffixes: seq<string>, k: nat, rec: LogRecord)
    requires k < |suffixes| && Responds(http, base, suffixes[k])
    requires rec.Found? || rec.Failed?
  {
    var resp := AnswerAt(http, base, suffixes, k);
    rec.status == resp.status && rec.target == (if cfg.expandUrlLog then resp.url.href else "/" + suffixes[k])
  }

  /** An `OK` or `ERR` record is the line about one of the answered suffixes. */
  predicate AnsweredLine(cfg: WorkerConfig, http: Http, base: Url, suffixes: seq<string>, rec: LogRecord) {
    (rec.Found? || rec.Failed?) ==>
      exists k :: 0 <= k < RespondedPrefix(http, base, suffixes) && LineOfAnswer(cfg, http, base, suffixes, k, rec)
  }

  predicate AllAnswered(cfg: WorkerConfig, http: Http, base: Url, suffixes: seq<string>, log: seq<LogRecord>) {
    forall j :: 0 <= j < |log| ==> AnsweredLine(cfg, http, base, suffixes, log[j])
  }

  lemma AnsweredLineOfTail(cfg: WorkerConfig, http: Http, base: Url, suffixes: seq<string>, rec: LogRecord)
    requires suffixes != [] && Responds(http, base, suffixes[0])
    requires AnsweredLine(cfg, http, base, suffixes[1..], rec)
    ensures AnsweredLine(cfg, http, base, suffixes, rec)
  {
    if rec.Found? || rec.Failed? {
      var tail := suffixes[1..];
      var k :| 0 <= k < RespondedPrefix(http, base, tail) && LineOfAnswer(cfg, http, base, tail, k, rec);
      assert RespondedPrefix(http, base, suffixes) == 1 + RespondedPrefix(http, base, tail);
      assert suffixes[k + 1] == tail[k];
      assert AnswerAt(http, base, suffixes, k + 1) == AnswerAt(http, base, tail, k);
      assert LineOfAnswer(cfg, http, base, suffixes, k + 1, rec);
    }
  }

  /** Every `OK` and `ERR` line of a scan is about one of the answered suffixes: it
      carries that answer's status, and names its response URL or "/" and the suffix. */
  lemma {:induction false} LoggedLinesAreAnswers(cfg: WorkerConfig, http: Http, base: Url, suffixes: seq<string>)
    ensures AllAnswered(cfg, http, base, suffixes, ScanSuffixes(cfg, http, base, suffixes).log)
    decreases |suffixes|
  {
    if suffixes != [] && Responds(http, base, suffixes[0]) {
      var tail := suffixes[1..];
      LoggedLinesAreAnswers(cfg, http, base, tail);
      var resp := AnswerAt(http, base, suffixes, 0);
      var head := ResponseLog(cfg, suffixes[0], resp);
      var tailLog := ScanSuffixes(cfg, http, base, tail).log;
      var log := ScanSuffixes(cfg, http, base, suffixes).log;
      assert log == head + tailLog;
      forall j | 0 <= j < |log| ensures AnsweredLine(cfg, http, base, suffixes, log[j]) {
        if j < |head| {
          assert LineOfAnswer(cfg, http, base, suffixes, 0, log[j]);
        } else {
          assert AnsweredLine(cfg, http, base, tail, tailLog[j - |head|]);
          assert log[j] == tailLog[j - |head|];
          AnsweredLineOfTail(cfg, http, base, suffixes, log[j]);
        }
      }
    }
  }

  /** Every answered suffix whose status is not ignored is logged: a 2xx status as an
      `OK` line at level Info, and any other status, when `printFails` is set, as an
      `ERR` line at level Warn; the line names the response URL when `expandUrlLog` is
      set and otherwise "/" and the suffix. */
  lemma {:induction false} AnsweredSuffixIsLogged(cfg: WorkerConfig, http: Http, base: Url, suffixes: seq<string>, k: nat)
    requires k < RespondedPrefix(http, base, suffixes)
    ensures var resp := http.get(http.join(base, suffixes[k]).value).value;
      var t := if cfg.expandUrlLog then resp.url.href else "/" + suffixes[k];
      var log := ScanSuffixes(cfg, http, base, suffixes).log;
      && (resp.status !in cfg.ignoreCodes && IsSuccess(resp.status) ==>
            Found(resp.status, t) in log && Found(resp.status, t).Severity() == Info)
      && (resp.status !in cfg.ignoreCodes && !IsSuccess(resp.status) && cfg.printFails ==>
            Failed(resp.status, t) in log && Failed(resp.status, t).Severity() == Warn)
    decreases |suffixes|
  {
    var tail := suffixes[1..];
    var head := ResponseLog(cfg, suffixes[0], AnswerAt(http, base, suffixes, 0));
    var tailLog := ScanSuffixes(cfg, http, base, tail).log;
    assert ScanSuffixes(cfg, http, base, suffixes).log == head + tailLog;
    if k > 0 {
      assert RespondedPrefix(http, base, suffixes) == 1 + RespondedPrefix(http, base, tail);
      assert suffixes[k] == tail[k - 1];
      AnsweredSuffixIsLogged(cfg, http, base, tail, k - 1);
    }
  }

  /** When every suffix is answered with an ignored status, nothing is logged, every
      suffix is requested and the result is `Ok`. */
  lemma {:induction false} IgnoredCodesAreSilent(cfg: WorkerConfig, http: Http, base: Url, suffixes: seq<string>)
    requires forall i :: 0 <= i < |suffixes| ==>
      Responds(http, base, suffixes[i])
      && http.get(http.join(base, suffixes[i]).value).value.status in cfg.ignoreCodes
    ensures var r := ScanSuffixes(cfg, http, base, suffixes);
      r.ok && r.log == [] && |r.requested| == |suffixes|
    decreases |suffixes|
  {
    if suffixes != [] {
      IgnoredCodesAreSilent(cfg, http, base, suffixes[1..]);
    }
  }

  /** A worker's log over several words is the logs of the words in order: a word that
      ends in `Err` does not stop or change the words after it. */
  lemma {:induction false} ExecuteLogAppend(cfg: WorkerConfig, http: Http, a: seq<string>, b: seq<string>)
    ensures ExecuteLog(cfg, http, a + b) == ExecuteLog(cfg, http, a) + ExecuteLog(cfg, http, b)
    decreases |b|
  {
    if b == [] {
      assert a + b == a;
    } else {
      var b' := b[..|b| - 1];
      assert (a + b)[..|a + b| - 1] == a + b';
      ExecuteLogAppend(cfg, http, a, b');
    }
  }
}
