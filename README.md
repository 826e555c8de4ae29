# fuzz-rs httpdir: a Dafny model

fuzz-rs is a directory brute-forcer. Its `httpdir` scan does the following:

- It reads a word list line by line.
- It hands each trimmed word to a pool of workers over a bounded channel.
- Each worker requests the word and the word followed by each configured extension, under the target URL.
- It logs `OK <status> /<suffix>` for a 2xx answer.
- It logs `ERR <status> /<suffix>` for any other answer, but only when failures are to be printed.
- Status codes on the ignore list are never logged.

This project models the core of that scan:

- the extension list of `src/utils.rs`;
- the worker of `src/httpdir/worker.rs`;
- the HTTP client builder of `src/httpdir/http_client_builder.rs`, including the basic-auth header and the redirect policy that keeps the scan on the target host;
- the pool bookkeeping of `src/dispatch.rs`;
- the scanner of `src/httpdir/scanner.rs`;
- the older self-contained version in `src/httpdir.rs`.

The model works as follows:

- URL joining and HTTP GET are oracles, passed in as functions. Both may fail.
- Whether a send times out, whether a worker task panics, and whether reqwest can build a client are parameters as well.
- A word list is a sequence of `read_line` results. Reading past its end is a 0-byte read.
- The worker configuration shared through `Arc` is one object of class `Common.Shared`.

Files:

- `common.dfy`:
  - Rust integer types;
  - `usize as i32`;
  - `str::trim` over Unicode White_Space;
  - decimal printing;
  - UTF-8.
- `base64.dfy`: the standard padded base64 of section 4 of RFC 4648. It has a decoder, and the round trip is proved.
- `net.dfy`: URLs, responses and the HTTP oracles.
- `utils.dfy`: `get_extention_list`.
- `worker.dfy`: `HttpDirWorker`.
- `client_builder.dfy`: `HttpClientBuilder`, a class whose setters update its fields.
- `dispatch.dfy`: `Dispatcher`, a class holding the started handles.
- `scanner.dfy`: `HttpDirScanner`, including ignore-code parsing, the thread clamp, the client wiring, the feeder loop and the join.
- `legacy.dfy`: the older `src/httpdir.rs`. Lemmas relate it to the newer version.

## Model

| member | source | states |
|---|---|---|
| Common.UsizeAsI32 | src/httpdir/worker.rs:28 | `id as i32` keeps the value below 2^31 and otherwise agrees with it modulo 2^32 |
| Text.TrimIsTrimmed | src/utils.rs:55 | the result of `trim` starts and ends with a non-whitespace character, or is empty |
| Text.TrimIsSlice | src/utils.rs:55 | `trim` returns a contiguous slice of its input, and only whitespace lies outside that slice |
| Text.TrimIdempotent | src/utils.rs:55 | trimming twice is trimming once |
| Text.TrimAllWhitespace | src/utils.rs:55 | a string made only of whitespace trims to "" |
| Utils.NormaliseExtension | src/utils.rs:54-60 | a normalised extension starts with '.' and has no whitespace at either end |
| Utils.ExtensionList | src/utils.rs:48-69 | one entry per user extension, in input order, each the normalised entry; the built-in lines follow unchanged exactly when the default flag is set |
| Utils.GetExtentionList | src/utils.rs:48-69 | the imperative construction (map, then `append` of the defaults) yields `ExtensionList` |
| Utils.DefaultsAppended | src/utils.rs:63-67 | with the default flag the list is the list without it, followed by the default lines |
| Utils.NoExtensions | src/utils.rs:49-52 | with no user extensions and no defaults the list is empty |
| Utils.BlankExtensionIsDot | src/utils.rs:54-59 | an empty or all-whitespace entry becomes "." |
| Utils.NormaliseAddsDotExactlyWhenMissing | src/utils.rs:55-58 | a '.' is inserted exactly when the trimmed entry does not start with one |
| Utils.NormalisedIsFixed | src/utils.rs:54-59 | a trimmed entry that starts with '.' is left unchanged |
| Utils.NormaliseIdempotent | src/utils.rs:54-59 | normalising twice is normalising once |
| Utils.ExtensionListIdempotent | src/utils.rs:48-61 | feeding the user part of the list back in gives it back unchanged |
| Base64.Encode | src/httpdir/http_client_builder.rs:90-97 | the encoding has 4 characters per started group of 3 bytes, each from the alphabet or '=' |
| Base64.DecodeEncode | src/httpdir/http_client_builder.rs:90-97 | decoding the encoding gives back the bytes |
| Base64.EncodeIsPrintableAscii | src/httpdir/http_client_builder.rs:92-98 | every encoded character is visible ASCII (0x21 to 0x7E) |
| ClientBuilder.RedirectDecision | src/httpdir/http_client_builder.rs:70-78 | error when more than `max_redirects` URLs were already requested; otherwise stop exactly when the next host differs from the target's host, and follow exactly when it is the same |
| ClientBuilder.Followed | src/httpdir/http_client_builder.rs:68-79 | a chain follows a leading run of redirects, each one allowed by the policy; the first redirect after the run is not followed |
| ClientBuilder.RedirectsCappedAndOnDomain | src/httpdir/http_client_builder.rs:68-79 | after one request, at most `max_redirects` redirects are followed, and all of them stay on the target host |
| ClientBuilder.WholeChainFollowedIff | src/httpdir/http_client_builder.rs:68-79 | a whole redirect chain is followed iff it is at most `max_redirects` long and never leaves the target host |
| ClientBuilder.HeaderValueFromBytes | src/httpdir/http_client_builder.rs:98 | `HeaderValue::from_bytes` accepts the bytes unchanged iff each one is a valid header-value byte |
| ClientBuilder.CreateAuthHeaderNeverFails | src/httpdir/http_client_builder.rs:82-99 | `create_auth_header` always succeeds, and its value starts with "Basic " |
| ClientBuilder.AuthHeaderRoundTrip | src/httpdir/http_client_builder.rs:82-99 | base64-decoding what follows "Basic " gives the UTF-8 of `username:` followed by the password, if any |
| ClientBuilder.HttpClientBuilder.constructor | src/httpdir/http_client_builder.rs:18-27 | no headers, the default redirect policy, gzip off, an empty user agent and no timeout |
| ClientBuilder.HttpClientBuilder.Build | src/httpdir/http_client_builder.rs:29-42 | the client carries the builder's headers, gzip flag, redirect policy and user agent; it has a timeout exactly when a positive one was stored; `None` exactly when reqwest's build fails |
| ClientBuilder.HttpClientBuilder.BasicAuth | src/httpdir/http_client_builder.rs:44-50 | returns `Ok`; appends one `authorization` header with the computed value and changes nothing else |
| ClientBuilder.HttpClientBuilder.Gzip | src/httpdir/http_client_builder.rs:52-54 | sets the gzip flag; nothing else changes |
| ClientBuilder.HttpClientBuilder.TimeoutMs | src/httpdir/http_client_builder.rs:56-62 | stores a positive timeout and clears a non-positive one, so a stored timeout is always positive; nothing else changes |
| ClientBuilder.HttpClientBuilder.UserAgent | src/httpdir/http_client_builder.rs:64-66 | sets the user agent; nothing else changes |
| ClientBuilder.HttpClientBuilder.RedirectPolicyKeepOnDomain | src/httpdir/http_client_builder.rs:68-79 | installs the keep-on-domain policy for the target's host and the cap; nothing else changes |
| Worker.New | src/httpdir/worker.rs:26-31 | the worker shares the given configuration object; an id below 2^31 is kept as it is |
| Worker.Suffixes | src/httpdir/worker.rs:66-72 | the word itself first, then the word followed by each extension trimmed, in configured order |
| Worker.ProbeSuffixes | src/httpdir/worker.rs:74-107 | the suffix loop gives the result, log and requests of the `ScanSuffixes` specification |
| Worker.ProcessWord | src/httpdir/worker.rs:59-109 | `process_word` gives the result, log and requests of the `ProcessWordSpec` specification |
| Worker.Execute | src/httpdir/worker.rs:41-57 | the loop processes exactly the words received before the first `None`, in order; its log is the words' logs in order, whatever each word's result; it ends iff the receiver yielded `None` |
| Worker.WordsUntilEnd | src/httpdir/worker.rs:44-51 | the words taken are the received values, in order, up to the first `None` |
| Worker.ExecuteEndsIffSenderDropped | src/httpdir/worker.rs:44-51 | a worker processes every word delivered to it; its loop ends iff the sending side has been dropped |
| Worker.RespondedPrefix | src/httpdir/worker.rs:74-85 | counts the leading suffixes whose join and request both succeed; the suffix right after them does not succeed |
| Worker.InvalidWordMakesNoRequest | src/httpdir/worker.rs:60-64 | a word that cannot be joined onto the target gives `Err`, one error line and no request |
| Worker.ScanOkIffAllRespond | src/httpdir/worker.rs:74-108 | the word's result is `Ok` iff every suffix is joined and answered |
| Worker.ScanRequests | src/httpdir/worker.rs:74-85 | the URLs requested are the joins of the answered suffixes, in order; the first failing suffix's URL follows only when its request, and not its join, failed |
| Worker.ScanLog | src/httpdir/worker.rs:74-106 | the log is the log of the answered suffixes, then one `Invalid extention` or `Error while performing request` line for the first failure |
| Worker.ScanStopsAtFirstFailure | src/httpdir/worker.rs:74-108 | the first failing suffix ends the loop: its result, requests and log together |
| Worker.LogClassification | src/httpdir/worker.rs:87-106 | an `OK` line only for a 2xx status; an `ERR` line only for another status with `print_fails` set; never a line for an ignored status |
| Worker.LoggedLinesAreAnswers | src/httpdir/worker.rs:94-106 | every `OK`/`ERR` line is about one of the answered suffixes: it carries that answer's status and names the response URL when `expand_url_log` is set, otherwise "/" and that suffix |
| Worker.AnsweredSuffixIsLogged | src/httpdir/worker.rs:87-106 | every answered suffix whose status is not ignored is logged: a 2xx as an `OK` line at level Info, any other status when `print_fails` is set as an `ERR` line at level Warn, naming the response URL when `expand_url_log` is set, otherwise "/" and the suffix |
| Worker.IgnoredCodesAreSilent | src/httpdir/worker.rs:87-91 | when every answer has an ignored status, the result is `Ok`, nothing is logged and every suffix was requested |
| Worker.ExecuteLogAppend | src/httpdir/worker.rs:44-54 | a worker's log over two batches of words is the first batch's log followed by the second's |
| Dispatch.FirstNotReturned | src/dispatch.rs:35-40 | the first handle, in start order, whose task does not return; every handle before it returned |
| Dispatch.JoinInOrderCharacterised | src/dispatch.rs:35-40 | `Ok(())` iff every task returns; otherwise the first task that does not return decides between `Err` and waiting forever |
| Dispatch.StartedHandles | src/dispatch.rs:26-33 | `threads` handles with ids 0 to threads-1, all over the same configuration |
| Dispatch.Dispatcher.constructor | src/dispatch.rs:20-25 | no handles yet, and the configuration is wrapped once |
| Dispatch.Dispatcher.StartWorkers | src/dispatch.rs:26-33 | appends the started handles, ids in order, after those already there |
| Dispatch.Dispatcher.FinishAndWait | src/dispatch.rs:35-40 | joins the handles in start order and stops at the first that does not return |
| Scanner.ParseU16OfDecimal | src/httpdir/scanner.rs:40 | every `u16` parses back from its decimal form, with or without a leading '+' |
| Scanner.ParseU16Overflow | src/httpdir/scanner.rs:40 | a decimal number above 65535 does not parse |
| Scanner.ParseU16Shape | src/httpdir/scanner.rs:40 | a parsed entry starts with a digit or '+'; "" and "+" do not parse |
| Scanner.ParsedCodes | src/httpdir/scanner.rs:37-45 | filtering out failed parses gives at most as many codes as entries |
| Scanner.ParsedCodesMembership | src/httpdir/scanner.rs:37-45 | a code is on the ignore list iff some configured entry parses to it |
| Scanner.ParsedCodesAppend | src/httpdir/scanner.rs:37-42 | the parsed codes keep input order |
| Scanner.ParsedCodesAllValid | src/httpdir/scanner.rs:37-42 | when every entry parses, the codes are the entries' values, one for one |
| Scanner.ClampThreads | src/httpdir/scanner.rs:59 | the worker count is `threads` clamped to 1..300 |
| Scanner.MakeHttpClient | src/httpdir/scanner.rs:113-134 | gzip as configured; the keep-on-target redirect policy with a cap of 5; a timeout exactly when the configured one is positive; the configured user agent, or ""; an `authorization` header exactly when a username is given |
| Scanner.New | src/httpdir/scanner.rs:31-54 | the scanner holds its arguments, the extension list of `get_extention_list`, the parsed ignore codes, and exactly the client `make_http_client` configures (`ClientSettingsOf`); `Err` exactly when the client cannot be built |
| Scanner.FeedFromCharacterised | src/httpdir/scanner.rs:89-107 | from any read on, the feeder's result follows the characterisation stated for `FeedSendsTrimmedLines` |
| Scanner.FeedSendsTrimmedLines | src/httpdir/scanner.rs:89-107 | each read of more than 0 bytes sends its trimmed text, in order; the loop stops at the first 0-byte read, the first send that times out, or the first read error |
| Scanner.FeedWords | src/httpdir/scanner.rs:89-107 | the feeder loop sends what `Feed` specifies and ends as it does |
| Scanner.DispatchWith | src/httpdir/scanner.rs:71-111 | starts the pool, feeds the words, and returns `Err` on a read error; otherwise joins, with the outcome `DispatchOutcome` gives for whether the sender was dropped |
| Scanner.DispatchWorkersAsWritten | src/httpdir/scanner.rs:71-111 | `dispatch_workers` as written: the join runs while the sender is alive |
| Scanner.AsWrittenNeverReturns | src/httpdir/scanner.rs:72-109 | as written, with at least one worker, a word list read without error and no panic in worker 0, the scan never returns |
| Scanner.DispatchWorkers | src/httpdir/scanner.rs:71-111 | `dispatch_workers` with the sender dropped after the feeder loop |
| Scanner.DispatchReturns | src/httpdir/scanner.rs:71-111 | with the sender dropped, the scan always returns: `Ok(())` iff no worker panics, otherwise the `Err` of the first worker that did |
| Scanner.RunAsWritten | src/httpdir/scanner.rs:56-68 | `run` as written: an unreadable word list is an `Err` before anything is sent; otherwise the words sent are the feeder's, and the outcome is that of the join over the clamped worker count with the sender still alive |
| Scanner.RunAsWrittenNeverReturns | src/httpdir/scanner.rs:56-68 | as written, a scan whose word list is read to its end without error never returns unless worker 0 panics |
| Scanner.Run | src/httpdir/scanner.rs:56-68 | `run` with the corrected dispatch: an unreadable word list is an `Err` before anything is sent; otherwise the words sent and the outcome are those of the feeder and the join over the clamped worker count, with the sender dropped first |
| LegacyHttpDir.LegacySuffixes | src/httpdir.rs:98-104 | the word, then the word followed by each extension as stored, untrimmed |
| LegacyHttpDir.LegacySuffixesOfTrimmed | src/httpdir.rs:98-104 | with trimmed extensions, the older suffixes equal the newer ones |
| LegacyHttpDir.LegacySuffixesKeepPadding | src/httpdir.rs:100-104 | with the extension " .php" the older version requests "a .php", where the newer one requests "a.php" |
| LegacyHttpDir.LegacyProbeAgrees | src/httpdir.rs:91-141 | with trimmed extensions, the older probe makes the same requests, logs the same lines and gives the same result as the newer one |
| LegacyHttpDir.ProcessWord | src/httpdir.rs:91-141 | the older `process_word` gives the result, log and requests of `LegacyProcessWordSpec` |
| LegacyHttpDir.Start | src/httpdir.rs:73-89 | processes exactly the words received before the first `None`, in order, and ends iff the receiver yielded `None` |
| LegacyHttpDir.LegacyExtensions | src/httpdir.rs:165-177 | one normalised entry per user extension |
| LegacyHttpDir.LegacyExtensionsWithoutDefaults | src/httpdir.rs:165-177 | the older list is the newer list without the default lines |
| LegacyHttpDir.LegacySuffixesOfOwnExtensions | src/httpdir.rs:165-177 | the extensions the older `new` builds are trimmed, so its untrimmed suffixes never differ from the newer ones |
| LegacyHttpDir.LegacyThreads | src/httpdir.rs:201-205 | at least one worker, with no upper bound |
| LegacyHttpDir.ThreadsVersusClamp | src/httpdir.rs:201-205 | the two versions agree up to 300 threads; above 300 only the older one starts more workers |
| LegacyHttpDir.LegacyMakeHttpClient | src/httpdir.rs:277-313 | an `authorization` header exactly when a username is given; the keep-on-target redirect policy with a cap of 5; gzip as configured; a timeout, of the configured value, exactly when it is positive; a user agent only when one is given |
| LegacyHttpDir.LegacyNew | src/httpdir.rs:161-196 | the scanner holds its arguments and the client of the older `make_http_client`; the extension list is the newer one without defaults; the ignore codes are parsed as in the newer version; `Err` exactly when the client cannot be built |
| LegacyHttpDir.SpawnWorkers | src/httpdir.rs:227-230 | one handle per worker, ids in order, all over one shared configuration |
| LegacyHttpDir.FeedLines | src/httpdir.rs:232-248 | the `while` loop with one reused line buffer sends exactly what the newer feeder sends and ends as it does |
| LegacyHttpDir.JoinAll | src/httpdir.rs:251-253 | joins in start order and stops at the first handle that does not return |
| LegacyHttpDir.Run | src/httpdir.rs:198-256 | the sender is dropped before the join, so the outcome is the newer corrected one over the older thread count |

## Left out

- Concurrency: tokio tasks, the shared `Mutex` around the receiver, and the bounded channel of capacity 1 are not modelled.
  - Which worker receives which word is not modelled.
  - Each worker is modelled alone, over the sequence its receiver yields (`Worker.Execute`).
- Time is not modelled.
  - The 20-second send timeout is the `sendTimesOut` oracle.
  - The `delay` between sends has no observable effect on what is sent.
  - The HTTP timeout is modelled only as the setting the client carries.
- reqwest and url internals are oracles.
  - URL joining (the WHATWG URL parser) and the GET request are oracles.
  - Building the client is the `backendReady` flag.
  - reqwest's default redirect policy is a bare constructor of `RedirectPolicy`.
- Logging is not modelled.
  - Log lines are `LogRecord` values with a level and a message.
  - The `debug!` and `trace!` lines, the `info!` banners of `run`, and the log backends and output file of main.rs are left out.
- `get_word_list` (src/utils.rs) is not modelled: opening the file is the `wordList` option and reading it is a sequence of `read_line` results.
  - Lines are given as already-decoded strings.
  - A line that is not valid UTF-8 is a read error.
- The contents of the built-in extension file are left out. They are the `defaultLines` parameter.
- Scanner.Run: uses the corrected dispatch, which drops the sender once the feeder loop ends. The source as written is `Scanner.RunAsWritten`, which never returns for a word list read without error unless worker 0 panics (see Findings).
- Argument parsing in main.rs and the `run_new` entry points are not part of this model.
  - `HttpDirConfig` (src/httpdir/mod.rs:9-53) and the `CommonArgs` fields the scan reads appear as records.
- A worker task's panic is the `panics` oracle.
- `basic_auth` never returns `Err`: `ClientBuilder.CreateAuthHeaderNeverFails` proves its error path unreachable. So `Scanner.MakeHttpClient` and `Scanner.New` fail only when the client cannot be built.
- `Worker.Execute` models a worker that has not yet seen `None`, and whose received words are used up, as returning `ended == false`.
  - In the source it waits in `recv` forever.
  - The join models that wait as `Pending`.

## Findings

| source | as written | input that shows it | evidently intended | confidence | as-written member | corrected member |
|---|---|---|---|---|---|---|
| src/httpdir/scanner.rs:72-109 | The sender `tx` created at line 72 is still alive when `finish_and_wait` awaits the workers at line 109. So no worker's `recv` ever yields `None`, and the first worker's task never finishes. | Any word list read without a read error, with at least one worker and worker 0 not panicking: the scan never returns. | Drop the sender when the feeder loop ends. The older src/httpdir.rs does this: its sender lives in the block at lines 214-249, which ends before the join at 251-253. Every worker then ends, and the scan returns `Ok(())` or the first worker's panic. | not executed | Scanner.DispatchWorkersAsWritten, Scanner.AsWrittenNeverReturns, Scanner.RunAsWritten, Scanner.RunAsWrittenNeverReturns | Scanner.DispatchWorkers, Scanner.DispatchReturns, Scanner.Run |
