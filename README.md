# WARC deduplication, modelled in Dafny

This project models the two deduplicators of the NewsGrabber warrior.
- `warc_dedup/deduplicate.py` is the asynchronous pipeline of the `Warc` class.
- `dedupe.py` is the older synchronous script.

Both read a WARC file and look up every `response` record's payload digest in the Internet Archive's CDX index. A response that was already archived is replaced by a `revisit` record under the WARC 1.0 `identical-payload-digest` profile (ISO 28500; section 6.7.2 of WARC 1.1). Other records are written in their place and order. `dedupe.py` writes them unchanged. `warc_dedup/deduplicate.py` strips angle brackets from a `<...>` target URI and sets a `warcinfo` record's `WARC-Filename` to the output file's name.

Modules:

- `PyText` (`pytext.dfy`) holds the Python `str` behaviour the code relies on:
  - `isspace`/`\s` and `strip`;
  - `splitlines`, including `\r\n` and the other Unicode line boundaries;
  - `split`, `split(c, 1)`, `rsplit(c, n)[0]`;
  - `in` and clamped slicing.
- `Timestamp` (`timestamp.dfy`) covers 14-digit CDX timestamps, the `strptime`/`strftime` round trip of the asynchronous client, and the layout the synchronous client builds by slicing.
- `WarcRecords` (`records.dfy`) models a record as a header map plus HTTP headers and payload. `replace_header` is map update and `remove_header` is key removal. It also gives a declarative definition of the revisit record's headers.
- `Lookup` (`lookup.dfy`) is the CDX service as an environment. A `Net` maps a URL and a request number to an outcome: a transport error or a received body. It also holds the "first answer within a retry budget" rule shared by both clients.
- `Deduplicate` (`deduplicate.dfy`) models `warc_dedup/deduplicate.py`:
  - the `Warc` class with its target setter and existing-target check;
  - pass 1, which collects the keys;
  - the lookup phase: `fetch_single` with two ten-attempt windows, and `parse_ia_response`;
  - pass 2, which rewrites records and logs, with the log record last.
- `Dedupe` (`dedupe.py`) models `dedupe.py`:
  - `ia_available`, with its per-window retry counter, start-anchored verification and fallback window;
  - `revisit_record`;
  - `process`, with its hit and miss counters.

The methods follow the source's loops. Each one is proved equal to a specification function, and the lemmas state what those functions mean. For `dedupe.py`:
- `Dedupe.Available` returns `split(' ', 1)` of the first verified body.
- `Dedupe.StepFacts` and `Dedupe.RunDecides` show that `process` writes a revisit exactly when that result is truthy.

There is one exception. The fallback loop of `ia_available` never increments its retry counter. `Dedupe.IaAvailable` and `Dedupe.Process` use the corrected, bounded loop instead (see "## Findings"). `Dedupe.AvailableAsWritten` models the loop as written.

Two behaviours are made explicit as preconditions rather than hidden:
- Pass 1 keys responses on the raw `WARC-Target-URI`, but pass 2 keys them on the URI after `<...>` is unwrapped. So the `assert key in iaData` of line 53 fails for a bracket-wrapped response, unless another response carries the unwrapped URI and the same digest. `Deduplicate.BracketedResponseMissesKey` exhibits such a record. `Deduplicate.UnbracketedKeysAgree` proves the assertion holds when no response URI starts with `<`.
- A URI that starts with `<` but does not match `^<(.+)>$` makes line 46 raise (`UnwrapSafe`). A CDX line whose 15th character is not a space, or whose timestamp is not a calendar date, makes lines 171-176 raise (`Parsable`).

## Model

| member | source | states |
|---|---|---|
| PyText.StripEmptyIff | warc_dedup/deduplicate.py:153 | a body strips to the empty string exactly when every character is whitespace |
| PyText.StripKeepsPrefix | warc_dedup/deduplicate.py:171 | stripping a line that starts with a non-space keeps it up to any later non-space character |
| PyText.Strip | warc_dedup/deduplicate.py:153 | `strip()` gives a string that neither starts nor ends with whitespace and sits in the input with only whitespace around it |
| PyText.SplitLinesRejoin | warc_dedup/deduplicate.py:164 | `splitlines()` gives lines that hold no line boundary and, each followed by its terminator (`\r\n` or one boundary character, none after a last unterminated line), give the body back |
| PyText.SplitLinesCrLf | warc_dedup/deduplicate.py:164 | a `\r` ends a line by itself only when no `\n` follows it, so `\r\n` is one terminator |
| PyText.Split | warc_dedup/deduplicate.py:120 | `split(c)` gives c-free pieces that join back to the input, with two or more pieces exactly when c occurs |
| PyText.SplitOnce | warc_dedup/deduplicate.py:171 | `split(c, 1)` is the whole string without c, otherwise a c-free head, c, and the rest |
| PyText.RSplitHeadCut | warc_dedup/deduplicate.py:191 | when c occurs at least n times, `rsplit(c, n)[0]` ends right before a c, and the part cut off holds exactly n occurrences of c |
| PyText.RSplitHeadFew | warc_dedup/deduplicate.py:191 | when c occurs fewer than n times, `rsplit(c, n)[0]` is everything before its first occurrence |
| PyText.Slice | dedupe.py:64-65 | `s[i:j]` with non-negative bounds has length `min(j, len(s)) - i` (0 when that is negative) and its k-th character is `s[i + k]` |
| PyText.FindAt | warc_dedup/deduplicate.py:171 | the first occurrence of a character is the index with no earlier occurrence |
| Timestamp.PadNumber | warc_dedup/deduplicate.py:174-175 | rendering a digit string's value zero-padded to its width gives the string back |
| Timestamp.Strptime | warc_dedup/deduplicate.py:174 | parsing a valid 14-digit timestamp yields a valid calendar time |
| Timestamp.Strftime | warc_dedup/deduplicate.py:175 | `strftime('%Y-%m-%dT%H:%M:%SZ')` renders a valid calendar time in 20 characters |
| Timestamp.RenderParsed | warc_dedup/deduplicate.py:174-175 | `strptime` then `strftime('%Y-%m-%dT%H:%M:%SZ')` lays out the 14 digits unchanged as `YYYY-MM-DDThh:mm:ssZ` |
| WarcRecords.RevisitHeaders | warc_dedup/deduplicate.py:91-103 | reference definition of the revisit headers; `RevisitFacts` and `EditsGiveRevisitHeaders` state what it holds |
| WarcRecords.RevisitFacts | warc_dedup/deduplicate.py:89-109 | a revisit sets type, truncation, profile and both refers-to fields, sets `WARC-Refers-To` only for a record id, drops block digest and content length, keeps every other header and the HTTP headers |
| WarcRecords.EditsGiveRevisitHeaders | warc_dedup/deduplicate.py:89-109 | the `replace_header`/`remove_header` edits, applied in the order the code makes them, give exactly the declarative revisit headers |
| Lookup.FirstAnswer | warc_dedup/deduplicate.py:114-126 | the first attempt in a budget that received a body, every earlier one a transport error, or the budget's end when none did |
| Lookup.FirstAnswerStable | warc_dedup/deduplicate.py:114-126 | a first answer within a budget stays the first answer under any larger budget |
| Lookup.FirstAnswerAt | warc_dedup/deduplicate.py:124 | an attempt that received a body after only transport errors is the first answer |
| Deduplicate.ResponseKeysSnoc | warc_dedup/deduplicate.py:32-34 | appending a record adds its key to the key set exactly when it is a response |
| Deduplicate.ResponseKeysEmpty | warc_dedup/deduplicate.py:30-34 | the key set is empty exactly when the file holds no response record |
| Deduplicate.CollectKeys | warc_dedup/deduplicate.py:30-34 | pass 1 maps exactly the keys of the response records, each to `None`; the map is empty exactly when there is no response record |
| Deduplicate.DigestValue | warc_dedup/deduplicate.py:120 | the query digest is the colon-free text right after the first colon, up to the next colon or the end |
| Deduplicate.DigestValueIsSplit | warc_dedup/deduplicate.py:120 | that text is `digest.split(':')[1]` |
| Deduplicate.FetchFacts | warc_dedup/deduplicate.py:113-127 | the lookup gives up only after 20 transport errors; otherwise it returns the body of the first request that connected and sends no further request |
| Deduplicate.FetchStopsAt | warc_dedup/deduplicate.py:113-122 | a body received after only failed connections is what the lookup returns, after exactly that many requests |
| Deduplicate.FetchExhausted | warc_dedup/deduplicate.py:113-127 | twenty failed connections mean the lookup returns nothing after twenty requests |
| Deduplicate.FetchSingle | warc_dedup/deduplicate.py:111-127 | the nested retry loops return exactly `Fetch` after exactly `RequestsMade` requests |
| Deduplicate.HasMarker | warc_dedup/deduplicate.py:155-163 | the body contains the robots marker, the administrative-exclusion marker or "Requested Line is too large"; `ParseIaResponseFacts` states its effect |
| Deduplicate.IsCdxLine | warc_dedup/deduplicate.py:165 | a line matches `^[0-9]{14}\s+https?://`; `FirstCdxLine` and `ParseIaResponseFacts` state its use |
| Deduplicate.FirstCdxLine | warc_dedup/deduplicate.py:164-170 | the index of the first line matching `^[0-9]{14}\s+https?://`, none when no line matches |
| Deduplicate.DecidingLine | warc_dedup/deduplicate.py:153-170 | the deciding line of a body is a CDX line |
| Deduplicate.CdxLineStrip | warc_dedup/deduplicate.py:171 | stripping a CDX line keeps its first 15 characters |
| Deduplicate.CdxLineFields | warc_dedup/deduplicate.py:171 | a CDX line with a space after its digits splits into the 14 digits and the rest of the stripped line |
| Deduplicate.CdxLineCapture | warc_dedup/deduplicate.py:171-176 | a parsable CDX line's stripped form is its 14 digits, a space and the URL, and its date renders in WARC layout |
| Deduplicate.ParseIaResponse | warc_dedup/deduplicate.py:148-176 | a match never carries a `record-id` and its date is 20 characters |
| Deduplicate.ParseIaResponseFacts | warc_dedup/deduplicate.py:148-176 | no body gives `False`; a blank body gives `None` and only it does; a marker gives `False` before any line is read; otherwise a match exactly when some line matches, taken from the first such line with URL after the first space and date in WARC layout |
| Deduplicate.IaData | warc_dedup/deduplicate.py:137-139 | the joined lookup result covers exactly the collected keys |
| Deduplicate.IaDataExt | warc_dedup/deduplicate.py:137-139 | a map holding each key's own classification is that result |
| Deduplicate.ResolveKeys | warc_dedup/deduplicate.py:129-139 | with no key, `asyncio.wait([])` raises; otherwise every key ends up holding `parse_ia_response` of its own fetch, and no key is added |
| Deduplicate.FallbackEmptyBodyIsNoCapture | warc_dedup/deduplicate.py:113-127 | ten failed `to=` requests then an empty `from=` body classify as "no capture" |
| Deduplicate.EmptyBodyIsNoCapture | warc_dedup/deduplicate.py:153-154 | an empty body classifies as "no capture" |
| Deduplicate.ExhaustedLookupFails | warc_dedup/deduplicate.py:150-152 | twenty failed requests classify as `False` |
| Deduplicate.ResponseToRevisit | warc_dedup/deduplicate.py:89-109 | the in-place header edits produce exactly the declarative revisit record |
| Deduplicate.BracketContent | warc_dedup/deduplicate.py:46 | the regex group is non-empty and newline-free, and the URI is it in angle brackets, with at most one trailing newline |
| Deduplicate.Unwrap | warc_dedup/deduplicate.py:42-49 | only `WARC-Target-URI` changes, only when it starts with `<`, to the bracketed text |
| Deduplicate.RewriteRecord | warc_dedup/deduplicate.py:42-74 | reference definition of pass 2 on one record and its log calls; `RewriteRecordFacts` states what it writes |
| Deduplicate.RewriteRecordFacts | warc_dedup/deduplicate.py:41-74 | a response becomes a revisit exactly when its result is truthy, referring to that capture and keeping digest, URI, record id and HTTP headers; a falsy response or other record is written unwrapped; warcinfo gets `WARC-Filename` := target |
| Deduplicate.PassThroughUnchanged | warc_dedup/deduplicate.py:73-74 | a non-response, non-warcinfo record with an unbracketed URI is written as read |
| Deduplicate.RewriteOne | warc_dedup/deduplicate.py:42-74 | the loop body writes the record and makes the log calls that `RewriteRecord` specifies |
| Deduplicate.RewriteRecords | warc_dedup/deduplicate.py:41-74 | pass 2 writes one record per input record, in order, each as `RewriteRecord` specifies, logging `RewriteLog` |
| Deduplicate.UnbracketedKeysAgree | warc_dedup/deduplicate.py:52-53 | without a bracket-wrapped response URI, every key pass 2 looks up was collected by pass 1 |
| Deduplicate.BracketedResponseMissesKey | warc_dedup/deduplicate.py:45-53 | a single response with URI `<http://e.com/>` unwraps safely but its pass-2 key is not in pass 1's map |
| Deduplicate.CreateWarcTarget | warc_dedup/deduplicate.py:189-193 | reference definition of the target name by suffix and `rsplit`; `CreateWarcTargetFacts` states what it gives |
| Deduplicate.CreateWarcTargetFacts | warc_dedup/deduplicate.py:189-193 | `X.warc.gz` becomes `X.deduplicated.warc.gz`, `X.warc` becomes `X.deduplicated.warc`, any other name gives `None`, and the target never equals the source |
| Deduplicate.Warc.constructor | warc_dedup/deduplicate.py:16-22 | the target is the derived name whatever was passed, and the two opening log lines are recorded |
| Deduplicate.Warc.SetWarcTarget | warc_dedup/deduplicate.py:182-186 | the setter discards its argument and stores the name derived from the source |
| Deduplicate.Warc.CheckTarget | warc_dedup/deduplicate.py:23-25 | construction fails with a log line exactly when the target file exists, and fails without one when there is no target |
| Deduplicate.Warc.Open | warc_dedup/deduplicate.py:16-25 | a new object is usable exactly when its derived target does not exist |
| Deduplicate.Warc.FetchFromIa | warc_dedup/deduplicate.py:129-146 | the lookup phase raises after its first log line exactly when there is no key; otherwise it resolves every key and logs both lines |
| Deduplicate.Warc.LookupPhase | warc_dedup/deduplicate.py:28-36 | the opening log line, pass 1 and the lookup phase: raising exactly when the file holds no response record, otherwise every response key resolved to its own lookup result |
| Deduplicate.Warc.WriteTarget | warc_dedup/deduplicate.py:38-76 | not reached after a raise; otherwise pass 2 of each record in order and then the log record, gzip exactly when the target ends in `.gz`, logging the per-record lines and "writing log" |
| Deduplicate.Warc.Deduplicate | warc_dedup/deduplicate.py:27-76 | a file without a response record raises in the lookup phase after two log lines and writes nothing; otherwise output is pass 2 of each input record in order and then the log record, gzip exactly when the target ends in `.gz`, and the log grows by start, both fetch lines, the per-record lines and "writing log" |
| Dedupe.QueryDigest | dedupe.py:16-17 | the query digest of a `sha1:` digest is the text after `sha1:` |
| Dedupe.QueriesDiffer | dedupe.py:29 | the primary and fallback windows send different queries |
| Dedupe.Verified | dedupe.py:18 | `^\d{14}\ http?s://` matches at the start of the whole body: 14 digits, one space, then `https://` or `htts://`, never `http://` |
| Dedupe.VerifiedSplit | dedupe.py:38 | a verified body splits at its first space into its 14 digits and the rest |
| Dedupe.Decide | dedupe.py:37-38 | a body is returned split exactly when it starts with 14 digits, a space and `https://` or `htts://`, otherwise `False` |
| Dedupe.Available | dedupe.py:14-59 | a verified primary body gives its `split(' ', 1)`; an unverified one defers to the fallback body's verdict; a found record is a pair whose first part is 14 digits and whose parts rejoin to a verified body |
| Dedupe.AvailableOffline | dedupe.py:21-56 | the lookup aborts exactly when the primary window, or (after an unverified primary body) the fallback window, gets no body in ten requests |
| Dedupe.PrimaryDecides | dedupe.py:37-38 | when the primary body verifies, the fallback window's behaviour does not affect the result |
| Dedupe.SameAttemptsSameAnswer | dedupe.py:21-36 | the first answer depends only on the attempts within the budget |
| Dedupe.AvailableAsWritten | dedupe.py:14-59 | `ia_available` as written, the fallback loop cut at `fuel` requests; the lemmas below compare it with `Available` |
| Dedupe.AsWrittenOfflineOnlyFromPrimary | dedupe.py:41-47 | as written, the abort can only come from the primary window |
| Dedupe.AsWrittenAgrees | dedupe.py:41-58 | as written and bounded agree whenever the fallback answers within ten requests |
| Dedupe.AsWrittenNeverAborts | dedupe.py:41-56 | when the primary window's first request returns a body that does not verify and no fallback request connects, the bounded lookup aborts but the code as written is still retrying after any number of requests |
| Dedupe.AsWrittenNeverAbortsExample | dedupe.py:41-56 | a concrete network (body `x` for the primary query of `sha1:X`, every other request refused) on which the code as written never aborts |
| Dedupe.FirstBody | dedupe.py:19-36 | one window's retry loop returns exactly the first body within ten requests, or none |
| Dedupe.IaAvailable | dedupe.py:14-59 | the two windows' loops, the fallback one with the missing `tries += 1` added, return exactly `Available` |
| Dedupe.SlicedDate | dedupe.py:63-65 | reference definition of the sliced date; `SlicedDateAgrees` states its layout |
| Dedupe.SlicedDateAgrees | dedupe.py:63-65 | the sliced date of a 14-character timestamp is its WARC layout, and for a valid one the date the asynchronous client renders |
| Dedupe.RevisitRecord | dedupe.py:61-78 | the in-place header edits produce the declarative revisit with the sliced date, `ia_record[1]` as target, and never sets `WARC-Refers-To` |
| Dedupe.StepOf | dedupe.py:88-100 | reference definition of the loop body on one record; `StepFacts` states its decision and `StepCounts` its counters |
| Dedupe.StepFacts | dedupe.py:88-99 | for a response, the step aborts exactly when the lookup is offline, writes the record unchanged exactly when nothing was found, and writes a revisit exactly when a capture was found, built from that capture |
| Dedupe.Run | dedupe.py:80-100 | reference definition of `process`; `RunShape` and `RunCounts` state what it writes and counts |
| Dedupe.FoldStaysStopped | dedupe.py:87-100 | after an abort, later records change nothing |
| Dedupe.FoldLength | dedupe.py:87-100 | at most one record written per record read, one for each exactly when nothing aborted |
| Dedupe.FoldShape | dedupe.py:87-100 | records are written in order, one per record reached, and an abort comes from the first record that causes one |
| Dedupe.RunShape | dedupe.py:87-100 | the run writes one record per record reached, in order, each being what the loop body writes for the input at its position; it stops early exactly when a record's step aborts |
| Dedupe.RunDecides | dedupe.py:87-99 | each written record is the input at its position, except a response whose lookup found a capture: exactly those become revisits referring to the capture |
| Dedupe.StepCounts | dedupe.py:92-100 | a record counts a hit exactly when a response became a revisit, and a miss exactly when it is not a response |
| Dedupe.HitsSnoc | dedupe.py:97-100 | both counters grow by the record appended |
| Dedupe.FoldCounts | dedupe.py:92-100 | the counters count hits and misses among the records reached |
| Dedupe.RunCounts | dedupe.py:92-100 | `dedupehit` is the number of responses written as revisits and `dedupemiss` the number of non-response records reached; unmatched responses count in neither |
| Dedupe.Process | dedupe.py:80-100 | the loop computes exactly `Run`: written records, both counters, and why it stopped; its lookups use the corrected fallback loop |

## Left out

- Concurrency: the lookups of `fetch_from_ia_async`, the connector limit of 10 and the event loop are modelled as one lookup after another. The lookups are independent, so this changes only the order of the lookup-phase log lines, which are not modelled. `asyncio.wait` of an empty task list (line 135) raises `ValueError`; that abort is modelled.
- The network is a parameter (`Net`). `urllib.parse.quote` is a parameter. `os.path.isfile` is a predicate parameter. `Log.create_record` is a parameter that maps the log to a record.
- An `Attempt` is either a transport error (`aiohttp.ClientError`, `requests.ConnectionError`) or a received body. Other exceptions propagate in the source and are not modelled: `asyncio.TimeoutError`, and `requests` read timeouts, which are not connection errors.
- `time.sleep`, the random backoff, `print`, the timing lines and `sys.argv` are I/O and are not modelled.
- Deduplicate.Warc.Deduplicate: the log lines written by `parse_ia_response` during the lookup phase are not modelled. Their order depends on task completion. It also requires `Resolvable` and `Rewritable` (see the lines below), where the source raises instead.
- Deduplicate.Warc.FetchFromIa: its log contract lists only the two lines of lines 142 and 146. The lines `parse_ia_response` logs in between (lines 151, 156, 159, 162 and 169) are not modelled, for the same reason.
- Deduplicate.FetchSingle: requires `Fetchable`. That excludes a response record with no `WARC-Payload-Digest`, a digest without `:` or no `WARC-Target-URI`. On such a key, lines 118 and 120 raise `TypeError`, `AttributeError` or `IndexError` inside the task, line 138 re-raises it, and the run aborts. The model does not represent that abort. `Deduplicate.ResolveKeys` and `Deduplicate.IaData` carry the same precondition through `Resolvable`.
- `register_response` and `_response_records` are written but never read, so they are not modelled.
- warcio internals are not modelled: `ArchiveIterator`, `WARCWriter`, gzip, the headers `create_warc_record` may add, duplicate headers and case-insensitive lookup. Headers are a map from name to value.
- Dedupe.Verified: `\d` in dedupe.py also matches non-ASCII decimal digits. The model accepts only `0`-`9`.
- Timestamp.Strftime: pads years below 1000 to four digits. The C library's `%Y` may print them without padding.
- Deduplicate.ParseIaResponse: requires `Parsable`, which excludes the bodies for which lines 171-176 raise `IndexError` or `ValueError`.
- Deduplicate.RewriteRecord: requires `Rewritable`, which excludes the records for which line 46 raises `AttributeError` or line 53's assertion fails.
- Dedupe.IaAvailable: the fallback loop gets the `tries += 1` that dedupe.py:41-56 lacks. So it returns `Offline` after ten failed fallback requests, where the source retries forever (`Dedupe.AsWrittenNeverAborts`).
- Dedupe.Process: it is built on the corrected `Dedupe.IaAvailable`. When a primary body does not verify and no fallback request connects, it stops with `ApiOffline`, where the source's `process` never finishes. The lookup of the i-th record sees the network `lookups(i)`. A raise (abort, missing header, non-`sha1:` digest) is modelled as a stop that keeps the records already written. The source's output file would be truncated there.
- Dedupe.AvailableAsWritten: the unbounded retry of the fallback window is cut at `fuel` requests. `None` stands for "still retrying".

## Findings

| source | as written | input that shows it | evidently intended | confidence | as-written member | corrected member |
|---|---|---|---|---|---|---|
| dedupe.py:41-56 | the fallback loop never increments `tries`, so `tries <= 9` always holds, the abort of line 46 is unreachable, and the loop retries forever while connections fail | a primary body that does not verify (e.g. `x`) and a fallback query whose every request raises `ConnectionError` | `tries += 1` as in the primary loop (line 27): abort after ten failed fallback requests | not executed | Dedupe.AvailableAsWritten, Dedupe.AsWrittenNeverAbortsExample | Dedupe.Available, Dedupe.AvailableOffline |
