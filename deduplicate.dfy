/**
 * The asynchronous deduplicator of warc_dedup/deduplicate.py: the `Warc`
 * object, its two passes over the source records, the CDX lookup of every
 * key with its two-window retry policy, the classification of CDX bodies and
 * the rewrite of a matched response into a revisit record.
 */
module Deduplicate {
  import opened Wrappers
  import opened PyText
  import opened Timestamp
  import opened WarcRecords
  import opened Lookup

  /** A key of `iaData`: the record's (WARC-Payload-Digest, WARC-Target-URI),
      each as `get_header` returns it. */
  datatype Key = Key(digest: Option<string>, uri: Option<string>)

  function KeyOf(r: Record): Key {
    Key(GetHeader(r.headers, PayloadDigest), GetHeader(r.headers, TargetUri))
  }

  /** What `parse_ia_response` returns: `False`, `None`, or a dict with
      'target-uri', 'date' and possibly 'record-id'. `None` is also the value
      pass 1 stores before any lookup. */
  datatype IaResult = Failed | NoCapture | Capture(targetUri: string, date: string, recordId: Option<string>)

  /** Python truthiness of an `iaData` value: only a (non-empty) dict is true. */
  predicate Truthy(r: IaResult) {
    r.Capture?
  }

  // ---------------------------------------------------------------- pass 1

  /** The distinct keys of the response records. */
  function ResponseKeys(records: seq<Record>): set<Key> {
    set i | 0 <= i < |records| && IsResponse(records[i]) :: KeyOf(records[i])
  }

  /** Appending a record adds its key when it is a response and nothing otherwise. */
  lemma ResponseKeysSnoc(records: seq<Record>, r: Record)
    ensures ResponseKeys(records + [r]) == ResponseKeys(records) + (if IsResponse(r) then {KeyOf(r)} else {})
  {
    var rs := records + [r];
    forall k | k in ResponseKeys(rs)
      ensures k in ResponseKeys(records) + (if IsResponse(r) then {KeyOf(r)} else {})
    {
      var i :| 0 <= i < |rs| && IsResponse(rs[i]) && KeyOf(rs[i]) == k;
      if i < |records| {
        assert rs[i] == records[i];
      }
    }
    forall k | k in ResponseKeys(records) ensures k in ResponseKeys(rs) {
      var i :| 0 <= i < |records| && IsResponse(records[i]) && KeyOf(records[i]) == k;
      assert rs[i] == records[i];
    }
    if IsResponse(r) {
      assert rs[|records|] == r;
    }
  }

  /** The file holds no response record. */
  predicate NoResponse(records: seq<Record>) {
    forall i :: 0 <= i < |records| ==> !IsResponse(records[i])
  }

  /** A file has response keys exactly when it has a response record. */
  lemma ResponseKeysEmpty(records: seq<Record>)
    ensures ResponseKeys(records) == {} <==> NoResponse(records)
  {
    if exists i :: 0 <= i < |records| && IsResponse(records[i]) {
      var i :| 0 <= i < |records| && IsResponse(records[i]);
      assert KeyOf(records[i]) in ResponseKeys(records);
    }
  }

  /** Pass 1 (lines 30-34): every response record's key, mapped to `None`. */
  method CollectKeys(records: seq<Record>) returns (iaData: map<Key, IaResult>)
    ensures iaData.Keys == ResponseKeys(records)
    ensures forall k :: k in iaData ==> iaData[k] == NoCapture
    ensures iaData == map[] <==> NoResponse(records)
  {
    iaData := map[];
    for i := 0 to |records|
      invariant iaData.Keys == ResponseKeys(records[..i])
      invariant forall k :: k in iaData ==> iaData[k] == NoCapture
    {
      assert records[..i + 1] == records[..i] + [records[i]];
      ResponseKeysSnoc(records[..i], records[i]);
      if IsResponse(records[i]) {
        iaData := iaData[KeyOf(records[i]) := NoCapture];
      }
    }
    assert records[..|records|] == records;
    ResponseKeysEmpty(records);
    if iaData != map[] {
      var k :| k in iaData;
    }
  }

  // ------------------------------------------------------- CDX lookup client

  const CdxEndpoint := "http://wwwb-dedup.us.archive.org:8083/cdx/search"

  /** The two lookup windows, in the order they are tried. */
  const Windows: seq<(string, string)> := [("to", "201905310000"), ("from", "20190703000")]

  /** The text between the first colon of `digest` and the next one (or the end). */
  function DigestValue(digest: string): (v: string)
    requires ':' in digest
    ensures var i := Find(digest, ':');
      && ':' !in v
      && digest[..i + 1] + v <= digest
      && (i + 1 + |v| == |digest| || digest[i + 1 + |v|] == ':')
  {
    var i := Find(digest, ':');
    var rest := digest[i + 1..];
    var j := Find(rest, ':');
    assert digest[..i + 1] + rest[..j] == digest[..i + 1 + j];
    rest[..j]
  }

  /** `digest.split(':')[1]` is that text. */
  lemma DigestValueIsSplit(digest: string)
    requires ':' in digest
    ensures |Split(digest, ':')| >= 2 && Split(digest, ':')[1] == DigestValue(digest)
  {
    var i := Find(digest, ':');
    var rest := digest[i + 1..];
    assert Split(digest, ':') == [digest[..i]] + Split(rest, ':');
  }

  /** The query `fetch_single` sends for one window. */
  function QueryUrl(quote: string -> string, digest: string, uri: string, window: nat): string
    requires ':' in digest && window < |Windows|
  {
    CdxEndpoint + "?url=" + quote(uri) + "&limit=100" + "&filter=digest:" + DigestValue(digest)
    + "&fl=timestamp,original" + "&" + Windows[window].0 + "=" + Windows[window].1
    + "&filter=!mimetype:warc\\/revisit"
  }

  /** A key `fetch_single` can build a query for: `digest.split(':')[1]` and
      `urllib.parse.quote(uri)` raise unless both are strings and the digest has a colon. */
  predicate Fetchable(k: Key) {
    k.digest.Some? && ':' in k.digest.value && k.uri.Some?
  }

  /** The window attempt j of a lookup belongs to: 0 for the first ten, then 1. */
  function WindowOf(j: nat): nat {
    if j < AttemptsPerWindow then 0 else 1
  }

  /** The outcome of attempt j (counted across both windows) of the lookup of a key. */
  function NthAttempt(net: Net, quote: string -> string, k: Key, j: nat): Attempt
    requires Fetchable(k)
  {
    net(QueryUrl(quote, k.digest.value, k.uri.value, WindowOf(j)), j - WindowOf(j) * AttemptsPerWindow)
  }

  /** The outcomes of a key's lookup attempts, in order. */
  function Attempts(net: Net, quote: string -> string, k: Key): nat -> Attempt
    requires Fetchable(k)
  {
    (j: nat) => NthAttempt(net, quote, k, j)
  }

  /** What `fetch_single` hands to the classifier: the first body received in at
      most ten attempts per window, or `None`. */
  function Fetch(k: Key, net: Net, quote: string -> string): Option<string>
    requires Fetchable(k)
  {
    var i := FirstAnswer(Attempts(net, quote, k), 0, 2 * AttemptsPerWindow);
    if i < 2 * AttemptsPerWindow then Some(NthAttempt(net, quote, k, i).text) else None
  }

  /** How many requests the lookup of a key sends: up to the first that connects. */
  function RequestsMade(k: Key, net: Net, quote: string -> string): nat
    requires Fetchable(k)
  {
    var i := FirstAnswer(Attempts(net, quote, k), 0, 2 * AttemptsPerWindow);
    if i < 2 * AttemptsPerWindow then i + 1 else i
  }

  /** The lookup gives up only when all twenty attempts failed to connect, and
      otherwise returns the body of the first attempt that connected, after
      sending no further request. */
  lemma FetchFacts(k: Key, net: Net, quote: string -> string)
    requires Fetchable(k)
    ensures Fetch(k, net, quote).None? <==>
      forall j :: 0 <= j < 2 * AttemptsPerWindow ==> NthAttempt(net, quote, k, j).TransportError?
    ensures RequestsMade(k, net, quote) <= 2 * AttemptsPerWindow
    ensures Fetch(k, net, quote).None? ==> RequestsMade(k, net, quote) == 2 * AttemptsPerWindow
    ensures Fetch(k, net, quote).Some? ==>
      var n := RequestsMade(k, net, quote);
      && 1 <= n
      && NthAttempt(net, quote, k, n - 1) == Received(Fetch(k, net, quote).value)
      && forall j :: 0 <= j < n - 1 ==> NthAttempt(net, quote, k, j).TransportError?
  {
    var i := FirstAnswer(Attempts(net, quote, k), 0, 2 * AttemptsPerWindow);
    forall j | 0 <= j < i
      ensures NthAttempt(net, quote, k, j).TransportError?
    {
      assert Attempts(net, quote, k)(j).TransportError?;
    }
    if i < 2 * AttemptsPerWindow {
      assert NthAttempt(net, quote, k, i) == Received(Fetch(k, net, quote).value);
    }
  }

  /** A body received after only failed connections ends the lookup there. */
  lemma FetchStopsAt(k: Key, net: Net, quote: string -> string, i: nat)
    requires Fetchable(k) && i < 2 * AttemptsPerWindow
    requires forall j :: 0 <= j < i ==> NthAttempt(net, quote, k, j).TransportError?
    requires NthAttempt(net, quote, k, i).Received?
    ensures Fetch(k, net, quote) == Some(NthAttempt(net, quote, k, i).text)
    ensures RequestsMade(k, net, quote) == i + 1
  {
    var a := Attempts(net, quote, k);
    forall j | 0 <= j < i ensures a(j).TransportError? {
      assert a(j) == NthAttempt(net, quote, k, j);
    }
    assert a(i) == NthAttempt(net, quote, k, i);
    FirstAnswerAt(a, 0, 2 * AttemptsPerWindow, i);
  }

  /** Twenty failed connections end the lookup with nothing. */
  lemma FetchExhausted(k: Key, net: Net, quote: string -> string)
    requires Fetchable(k)
    requires forall j :: 0 <= j < 2 * AttemptsPerWindow ==> NthAttempt(net, quote, k, j).TransportError?
    ensures Fetch(k, net, quote) == None
    ensures RequestsMade(k, net, quote) == 2 * AttemptsPerWindow
  {
    var a := Attempts(net, quote, k);
    forall j | 0 <= j < 2 * AttemptsPerWindow ensures a(j).TransportError? {
      assert a(j) == NthAttempt(net, quote, k, j);
    }
  }

  /** `fetch_single` (lines 111-127): ten attempts in the `to=` window, then ten in
      the `from=` window, returning the first body received. */
  method FetchSingle(key: Key, net: Net, quote: string -> string) returns (response: Option<string>, made: nat)
    requires Fetchable(key)
    ensures response == Fetch(key, net, quote)
    ensures made == RequestsMade(key, net, quote)
  {
    made := 0;
    var w := 0;
    while w < |Windows|
      invariant 0 <= w <= |Windows| && made == w * AttemptsPerWindow
      invariant forall j :: 0 <= j < made ==> NthAttempt(net, quote, key, j).TransportError?
    {
      for i := 0 to AttemptsPerWindow
        invariant made == w * AttemptsPerWindow + i
        invariant forall j :: 0 <= j < made ==> NthAttempt(net, quote, key, j).TransportError?
      {
        assert WindowOf(made) == w && made - w * AttemptsPerWindow == i;
        var outcome := net(QueryUrl(quote, key.digest.value, key.uri.value, w), i);
        assert outcome == NthAttempt(net, quote, key, made);
        if outcome.Received? {
          FetchStopsAt(key, net, quote, made);
          response := Some(outcome.text);
          made := made + 1;
          return;
        }
        made := made + 1;
      }
      w := w + 1;
    }
    FetchExhausted(key, net, quote);
    response := None;
  }

  // ------------------------------------------------- CDX body classification

  const RobotsMarker := "org.archive.wayback.exception.RobotAccessControlException"
  const ExclusionMarker := "org.archive.wayback.exception.AdministrativeAccessControlException"
  const TooLargeMarker := "Requested Line is too large"

  /** The body carries one of the three refusal markers. */
  predicate HasMarker(t: string) {
    Contains(t, RobotsMarker) || Contains(t, ExclusionMarker) || Contains(t, TooLargeMarker)
  }

  /** `re.search('^[0-9]{14}\s+https?://', line)`: fourteen ASCII digits, at least
      one whitespace character, then `http://` or `https://`. */
  predicate IsCdxLine(line: string) {
    && |line| > 14 && AllDigits(line[..14]) && IsSpace(line[14])
    && (StartsWith(LStrip(line[14..]), "http://") || StartsWith(LStrip(line[14..]), "https://"))
  }

  /** The index of the first CDX line, if any. */
  function FirstCdxLine(lines: seq<string>): (r: Option<nat>)
    ensures r.Some? ==> r.value < |lines| && IsCdxLine(lines[r.value])
    ensures r.Some? ==> forall j :: 0 <= j < r.value ==> !IsCdxLine(lines[j])
    ensures r.None? <==> forall j :: 0 <= j < |lines| ==> !IsCdxLine(lines[j])
    decreases |lines|
  {
    if lines == [] then None
    else if IsCdxLine(lines[0]) then Some(0)
    else match FirstCdxLine(lines[1..])
      case None => None
      case Some(k) => Some(k + 1)
  }

  /** The line the classifier settles on: none when the body is blank or carries
      a marker, or when no line is a CDX line. */
  function DecidingLine(t: string): (line: Option<string>)
    ensures line.Some? ==> IsCdxLine(line.value)
  {
    if AllSpace(t) || HasMarker(t) then None
    else match FirstCdxLine(SplitLines(t))
      case None => None
      case Some(k) => Some(SplitLines(t)[k])
  }

  /** The bodies for which lines 171-176 do not raise: the deciding line has a
      space right after its fourteen digits (otherwise `data[1]` is missing or
      `data[0]` is not a timestamp) and those digits are a valid date. */
  predicate Parsable(response: Option<string>) {
    response.Some? ==>
      match DecidingLine(response.value)
      case None => true
      case Some(line) => line[14] == ' ' && ValidTimestamp(line[..14])
  }

  /** On a CDX line, stripping keeps everything up to the first character of the URL. */
  lemma CdxLineStrip(line: string)
    requires IsCdxLine(line)
    ensures |Strip(line)| > 15 && Strip(line)[..15] == line[..15]
  {
    var tail := LStrip(line[14..]);
    var m := |line| - |tail|;
    assert tail == line[m..];
    assert m > 14;
    assert line[m] == 'h';
    assert IsDigit(line[..14][0]);
    StripKeepsPrefix(line, m);
    assert Strip(line)[..15] == Strip(line)[..m + 1][..15];
  }

  /** A string whose first space is its fifteenth character splits there. */
  lemma SplitAtFifteenth(s: string, head: string)
    requires |s| > 15 && |head| == 15 && s[..15] == head
    requires head[14] == ' ' && forall j :: 0 <= j < 14 ==> head[j] != ' '
    ensures SplitOnce(s, ' ') == [head[..14], s[15..]]
  {
    forall j | 0 <= j < 14 ensures s[j] != ' ' {
      assert s[j] == s[..15][j];
    }
    assert s[14] == s[..15][14];
    FindAt(s, ' ', 14);
    assert s[..14] == s[..15][..14];
  }

  /** Splitting a parsable CDX line at its first space separates the fourteen
      digits from the rest of the stripped line. */
  lemma CdxLineFields(line: string)
    requires IsCdxLine(line) && line[14] == ' '
    ensures |Strip(line)| > 15 && Strip(line)[..15] == line[..15]
    ensures SplitOnce(Strip(line), ' ') == [line[..14], Strip(line)[15..]]
  {
    CdxLineStrip(line);
    var head := line[..15];
    forall j | 0 <= j < 14 ensures head[j] != ' ' {
      assert head[j] == line[..14][j];
    }
    assert head[..14] == line[..14];
    SplitAtFifteenth(Strip(line), head);
  }

  /** The capture a parsable CDX line gives: the stripped line is the timestamp,
      a space and the URL, and the date is the timestamp in WARC layout. */
  lemma CdxLineCapture(line: string)
    requires IsCdxLine(line) && line[14] == ' ' && ValidTimestamp(line[..14])
    ensures var data := SplitOnce(Strip(line), ' ');
      && |data| == 2 && data[0] == line[..14]
      && Strip(line) == line[..14] + " " + data[1]
      && Strftime(Strptime(data[0])) == IsoLayout(line[..14])
  {
    CdxLineFields(line);
    var s := Strip(line);
    RenderParsed(line[..14]);
    assert s == s[..15] + s[15..];
    assert s[..15] == line[..14] + " ";
  }

  /** `parse_ia_response` (lines 148-176). */
  function ParseIaResponse(response: Option<string>): (r: IaResult)
    requires Parsable(response)
    ensures r.Capture? ==> r.recordId.None? && |r.date| == 20
  {
    if response.None? then Failed
    else
      var t := response.value;
      if |Strip(t)| == 0 then NoCapture
      else if HasMarker(t) then Failed
      else
        var lines := SplitLines(t);
        match FirstCdxLine(lines)
        case None => Failed
        case Some(k) =>
          var line := lines[k];
          StripEmptyIff(t);
          CdxLineFields(line);
          var data := SplitOnce(Strip(line), ' ');
          Capture(data[1], Strftime(Strptime(data[0])), None)
  }

  /** What the classification means: no body is a failure, a blank body means no
      earlier capture, a refusal marker is a failure, and otherwise the first CDX
      line decides: a capture whose URL is the rest of that line and whose date
      is the WARC layout of its timestamp, or a failure when there is none. */
  lemma ParseIaResponseFacts(response: Option<string>)
    requires Parsable(response)
    ensures var r := ParseIaResponse(response);
      && (response.None? ==> r == Failed)
      && (r == NoCapture <==> response.Some? && AllSpace(response.value))
      && (response.Some? && !AllSpace(response.value) && HasMarker(response.value) ==> r == Failed)
      && (r.Capture? <==>
            && response.Some? && !AllSpace(response.value) && !HasMarker(response.value)
            && exists k :: 0 <= k < |SplitLines(response.value)| && IsCdxLine(SplitLines(response.value)[k]))
    ensures var r := ParseIaResponse(response);
      r.Capture? ==>
        var lines := SplitLines(response.value);
        exists k :: 0 <= k < |lines| && IsCdxLine(lines[k])
          && (forall j :: 0 <= j < k ==> !IsCdxLine(lines[j]))
          && Strip(lines[k]) == lines[k][..14] + " " + r.targetUri
          && r.date == IsoLayout(lines[k][..14])
  {
    if response.Some? {
      var t := response.value;
      StripEmptyIff(t);
      if !AllSpace(t) && !HasMarker(t) {
        var lines := SplitLines(t);
        match FirstCdxLine(lines)
        case None =>
          assert ParseIaResponse(response) == Failed;
        case Some(k) =>
          CdxLineCapture(lines[k]);
          var data := SplitOnce(Strip(lines[k]), ' ');
          assert ParseIaResponse(response) == Capture(data[1], IsoLayout(lines[k][..14]), None);
      }
    }
  }

  /** Every key `fetch_from_ia_async` can look up without raising. */
  predicate Resolvable(keys: set<Key>, net: Net, quote: string -> string) {
    forall k :: k in keys ==> Fetchable(k) && Parsable(Fetch(k, net, quote))
  }

  /** What `iaData` holds after the lookup phase's join point. */
  function IaData(keys: set<Key>, net: Net, quote: string -> string): (ia: map<Key, IaResult>)
    requires Resolvable(keys, net, quote)
    ensures ia.Keys == keys
  {
    map k | k in keys :: ParseIaResponse(Fetch(k, net, quote))
  }

  /** A map over the looked-up keys holding each key's own classification is `IaData`. */
  lemma IaDataExt(m: map<Key, IaResult>, keys: set<Key>, net: Net, quote: string -> string)
    requires Resolvable(keys, net, quote) && m.Keys == keys
    requires forall k :: k in m ==> m[k] == ParseIaResponse(Fetch(k, net, quote))
    ensures m == IaData(keys, net, quote)
  {
  }

  /** `fetch_from_ia_async` (lines 129-139), one key after another: every key
      of `iaData` ends up holding the classification of its own lookup. With
      no key at all, `asyncio.wait` of the empty task list (line 135) raises
      `ValueError`, modelled as `None`. */
  method ResolveKeys(iaData: map<Key, IaResult>, net: Net, quote: string -> string)
    returns (result: Option<map<Key, IaResult>>)
    requires Resolvable(iaData.Keys, net, quote)
    ensures result.None? <==> iaData == map[]
    ensures result.Some? ==> result.value.Keys == iaData.Keys
    ensures result.Some? ==>
      forall k :: k in result.value ==> result.value[k] == ParseIaResponse(Fetch(k, net, quote))
  {
    if iaData == map[] {
      return None;
    }
    var resolved := iaData;
    var pending := iaData.Keys;
    while pending != {}
      invariant pending <= iaData.Keys && resolved.Keys == iaData.Keys
      invariant forall k :: k in resolved && k !in pending ==> resolved[k] == ParseIaResponse(Fetch(k, net, quote))
      decreases |pending|
    {
      var key :| key in pending;
      var response, _ := FetchSingle(key, net, quote);
      resolved := resolved[key := ParseIaResponse(response)];
      pending := pending - {key};
    }
    result := Some(resolved);
  }

  /** A key whose ten `to=` attempts all fail to connect and whose first `from=`
      attempt gets an empty body resolves to "no prior capture", not to a failure. */
  lemma FallbackEmptyBodyIsNoCapture(k: Key, net: Net, quote: string -> string)
    requires Fetchable(k)
    requires forall j :: 0 <= j < AttemptsPerWindow ==> NthAttempt(net, quote, k, j).TransportError?
    requires NthAttempt(net, quote, k, AttemptsPerWindow) == Received("")
    ensures Fetch(k, net, quote) == Some("")
    ensures Parsable(Fetch(k, net, quote)) && ParseIaResponse(Fetch(k, net, quote)) == NoCapture
  {
    FetchStopsAt(k, net, quote, AttemptsPerWindow);
    EmptyBodyIsNoCapture();
  }

  /** An empty body classifies as "no prior capture". */
  lemma EmptyBodyIsNoCapture()
    ensures Parsable(Some("")) && ParseIaResponse(Some("")) == NoCapture
  {
    assert DecidingLine("") == None;
    StripEmptyIff("");
  }

  /** A key whose twenty attempts all fail to connect resolves to a failure. */
  lemma ExhaustedLookupFails(k: Key, net: Net, quote: string -> string)
    requires Fetchable(k)
    requires forall j :: 0 <= j < 2 * AttemptsPerWindow ==> NthAttempt(net, quote, k, j).TransportError?
    ensures Fetch(k, net, quote).None? && ParseIaResponse(Fetch(k, net, quote)) == Failed
  {
    FetchFacts(k, net, quote);
  }

  // ----------------------------------------------------------- revisit rewrite

  /** `response_to_revisit` (lines 89-109): the header edits, one after another. */
  method ResponseToRevisit(record: Record, data: IaResult) returns (revisit: Record)
    requires data.Capture?
    ensures revisit == Revisit(record, data.recordId, data.date, data.targetUri)
  {
    var h := record.headers;
    if data.recordId.Some? {
      h := h[RefersTo := data.recordId.value];
    }
    h := h[RefersToDate := data.date];
    h := h[RefersToTargetUri := data.targetUri];
    h := h[WarcType := "revisit"];
    h := h[Truncated := "length"];
    h := h[Profile := IdenticalPayloadDigest];
    h := h - {BlockDigest};
    h := h - {ContentLength};
    assert h == EditedHeaders(record.headers, data.recordId, data.date, data.targetUri);
    EditsGiveRevisitHeaders(record.headers, data.recordId, data.date, data.targetUri);
    revisit := Record(h, record.httpHeaders, []);
  }

  // ---------------------------------------------------------------- pass 2

  /** Angle brackets around at least one character, and no newline (`.` does not match one). */
  predicate Bracketed(u: string) {
    |u| >= 3 && u[0] == '<' && u[|u| - 1] == '>' && '\n' !in u
  }

  /** `re.search('^<(.+)>$', url)` matches: `$` matches at the end and also
      before a newline that ends the string. */
  predicate BracketWrapped(u: string) {
    Bracketed(u) || (|u| >= 1 && u[|u| - 1] == '\n' && Bracketed(u[..|u| - 1]))
  }

  /** `.group(1)` of that match: the text the brackets enclose. */
  function BracketContent(u: string): (x: string)
    requires BracketWrapped(u)
    ensures |x| >= 1 && '\n' !in x
    ensures u == "<" + x + ">" || u == "<" + x + ">\n"
  {
    if Bracketed(u) then u[1..|u| - 1] else u[1..|u| - 2]
  }

  /** The target URI starts with `<` (line 45). */
  predicate StartsWithBracket(r: Record) {
    TargetUri in r.headers && StartsWith(r.headers[TargetUri], "<")
  }

  /** Line 46 does not raise: a URI that starts with `<` is bracket-wrapped. */
  predicate UnwrapSafe(r: Record) {
    StartsWithBracket(r) ==> BracketWrapped(r.headers[TargetUri])
  }

  /** The record after lines 42-49: a target URI starting with `<` is replaced
      by what the brackets enclose. */
  function Unwrap(r: Record): (c: Record)
    requires UnwrapSafe(r)
    ensures c.httpHeaders == r.httpHeaders && c.payload == r.payload
    ensures forall k :: k != TargetUri ==> GetHeader(c.headers, k) == GetHeader(r.headers, k)
    ensures !StartsWithBracket(r) ==> c == r
    ensures StartsWithBracket(r) ==> TargetUri in c.headers
    ensures StartsWithBracket(r) ==>
      var x := c.headers[TargetUri];
      r.headers[TargetUri] == "<" + x + ">" || r.headers[TargetUri] == "<" + x + ">\n"
  {
    if StartsWithBracket(r) then
      r.(headers := r.headers[TargetUri := BracketContent(r.headers[TargetUri])])
    else r
  }

  /** Pass 2 can process the record: the unwrap does not raise, and a response's
      key, computed after the unwrap, is in `iaData` (the `assert` of line 53). */
  predicate Rewritable(r: Record, keys: set<Key>) {
    UnwrapSafe(r) && (IsResponse(Unwrap(r)) ==> KeyOf(Unwrap(r)) in keys)
  }

  /** The messages `Log.log` receives. */
  datatype LogMessage =
    | SourceIs(source: string)
    | TargetIs(target: Option<string>)
    | TargetAlreadyExists(path: string)
    | StartDeduplication
    | FetchingFromIa
    | FetchedFromIa
    | ProcessingRecord(id: Option<string>)
    | ReplacingUrl(id: Option<string>, url: string)
    | DeduplicatingRecord(id: Option<string>)
    | DuplicateOf(id: Option<string>, data: IaResult)
    | NotDeduplicated(id: Option<string>)
    | NotDuplicate(id: Option<string>)
    | WritingLog

  /** One call on the run's `Log` object. */
  datatype LogCall = Log(message: LogMessage) | SetWarcinfo(recordId: Option<string>)

  /** Pass 2 on one record (lines 42-74): the record written and the log calls made. */
  function RewriteRecord(r: Record, iaData: map<Key, IaResult>, target: string): (Record, seq<LogCall>)
    requires Rewritable(r, iaData.Keys)
  {
    var id := GetHeader(r.headers, RecordId);
    var c := Unwrap(r);
    var before := [Log(ProcessingRecord(id))]
      + (if StartsWithBracket(r) then [Log(ReplacingUrl(id, c.headers[TargetUri]))] else []);
    if IsResponse(c) then
      var data := iaData[KeyOf(c)];
      if Truthy(data) then
        (Revisit(c, data.recordId, data.date, data.targetUri),
         before + [Log(DeduplicatingRecord(id))] + [Log(DuplicateOf(id, data))])
      else
        (c, before + [Log(DeduplicatingRecord(id))]
              + [Log(if data.Failed? then NotDeduplicated(id) else NotDuplicate(id))])
    else if IsType(c, "warcinfo") then
      (c.(headers := c.headers[Filename := target]), before + [SetWarcinfo(GetHeader(c.headers, RecordId))])
    else
      (c, before)
  }

  /** What pass 2 writes for one record: a response becomes a revisit exactly
      when its lookup result is truthy, and then it refers to that capture;
      a warcinfo record names the target file; anything else passes through
      with only its target URI unwrapped. */
  lemma RewriteRecordFacts(r: Record, iaData: map<Key, IaResult>, target: string)
    requires Rewritable(r, iaData.Keys)
    ensures var out := RewriteRecord(r, iaData, target).0;
      var c := Unwrap(r);
      && (IsResponse(r) ==> (IsType(out, "revisit") <==> Truthy(iaData[KeyOf(c)])))
      && (IsResponse(r) && Truthy(iaData[KeyOf(c)]) ==>
            var d := iaData[KeyOf(c)];
            && GetHeader(out.headers, RefersToDate) == Some(d.date)
            && GetHeader(out.headers, RefersToTargetUri) == Some(d.targetUri)
            && GetHeader(out.headers, BlockDigest) == None
            && GetHeader(out.headers, ContentLength) == None
            && GetHeader(out.headers, TargetUri) == GetHeader(c.headers, TargetUri)
            && GetHeader(out.headers, RecordId) == GetHeader(r.headers, RecordId)
            && GetHeader(out.headers, PayloadDigest) == GetHeader(r.headers, PayloadDigest)
            && out.httpHeaders == r.httpHeaders && out.payload == [])
      && (IsResponse(r) && !Truthy(iaData[KeyOf(c)]) ==> out == c)
      && (IsType(r, "warcinfo") ==>
            && GetHeader(out.headers, Filename) == Some(target)
            && (forall k :: k != Filename ==> GetHeader(out.headers, k) == GetHeader(c.headers, k))
            && out.payload == r.payload)
      && (!IsResponse(r) && !IsType(r, "warcinfo") ==> out == c)
  {
    var c := Unwrap(r);
    assert GetHeader(c.headers, WarcType) == GetHeader(r.headers, WarcType);
    if IsResponse(r) {
      var d := iaData[KeyOf(c)];
      if Truthy(d) {
        RevisitFacts(c, d.recordId, d.date, d.targetUri);
      }
    }
  }

  /** A record that is neither a response nor a warcinfo record, and whose target
      URI does not start with `<`, is written exactly as it was read. */
  lemma PassThroughUnchanged(r: Record, iaData: map<Key, IaResult>, target: string)
    requires !IsResponse(r) && !IsType(r, "warcinfo") && !StartsWithBracket(r)
    ensures Rewritable(r, iaData.Keys) && RewriteRecord(r, iaData, target).0 == r
  {
  }

  /** The log calls of pass 2, record after record. */
  function RewriteLog(records: seq<Record>, iaData: map<Key, IaResult>, target: string): seq<LogCall>
    requires forall i :: 0 <= i < |records| ==> Rewritable(records[i], iaData.Keys)
    decreases |records|
  {
    if records == [] then []
    else RewriteLog(records[..|records| - 1], iaData, target) + RewriteRecord(records[|records| - 1], iaData, target).1
  }

  /** The body of the loop of pass 2 (lines 42-74) on one record. */
  method RewriteOne(r: Record, iaData: map<Key, IaResult>, target: string) returns (out: Record, calls: seq<LogCall>)
    requires Rewritable(r, iaData.Keys)
    ensures (out, calls) == RewriteRecord(r, iaData, target)
  {
    var record := r;
    var url := GetHeader(record.headers, TargetUri);
    var recordId := GetHeader(record.headers, RecordId);
    calls := [Log(ProcessingRecord(recordId))];
    if url.Some? && StartsWith(url.value, "<") {
      var u := BracketContent(url.value);
      calls := calls + [Log(ReplacingUrl(recordId, u))];
      record := record.(headers := record.headers[TargetUri := u]);
    }
    assert record == Unwrap(r);
    if IsResponse(record) {
      calls := calls + [Log(DeduplicatingRecord(recordId))];
      var data := iaData[KeyOf(record)];
      if Truthy(data) {
        calls := calls + [Log(DuplicateOf(recordId, data))];
        out := ResponseToRevisit(record, data);
      } else {
        calls := calls + [Log(if data.Failed? then NotDeduplicated(recordId) else NotDuplicate(recordId))];
        out := record;
      }
    } else if IsType(record, "warcinfo") {
      calls := calls + [SetWarcinfo(GetHeader(record.headers, RecordId))];
      out := record.(headers := record.headers[Filename := target]);
    } else {
      out := record;
    }
    assert out == RewriteRecord(r, iaData, target).0 && calls == RewriteRecord(r, iaData, target).1;
  }

  /** Pass 2 (lines 41-74) without the final log record. */
  method RewriteRecords(records: seq<Record>, iaData: map<Key, IaResult>, target: string)
    returns (written: seq<Record>, calls: seq<LogCall>)
    requires forall i :: 0 <= i < |records| ==> Rewritable(records[i], iaData.Keys)
    ensures |written| == |records|
    ensures forall i :: 0 <= i < |records| ==> written[i] == RewriteRecord(records[i], iaData, target).0
    ensures calls == RewriteLog(records, iaData, target)
  {
    written, calls := [], [];
    for i := 0 to |records|
      invariant |written| == i
      invariant forall j :: 0 <= j < i ==> written[j] == RewriteRecord(records[j], iaData, target).0
      invariant calls == RewriteLog(records[..i], iaData, target)
    {
      assert records[..i + 1][..i] == records[..i];
      var out, more := RewriteOne(records[i], iaData, target);
      written := written + [out];
      calls := calls + more;
    }
    assert records[..|records|] == records;
  }

  /** When no response record's target URI starts with `<`, every key pass 2
      looks up was collected by pass 1, so the `assert` of line 53 holds. */
  lemma UnbracketedKeysAgree(records: seq<Record>)
    requires forall i :: 0 <= i < |records| ==> UnwrapSafe(records[i])
    requires forall i :: 0 <= i < |records| && IsResponse(records[i]) ==> !StartsWithBracket(records[i])
    ensures forall i :: 0 <= i < |records| ==> Rewritable(records[i], ResponseKeys(records))
  {
    forall i | 0 <= i < |records|
      ensures Rewritable(records[i], ResponseKeys(records))
    {
      assert GetHeader(Unwrap(records[i]).headers, WarcType) == GetHeader(records[i].headers, WarcType);
    }
  }

  /** Pass 1 keys on the raw target URI (line 34) and pass 2 on the unwrapped one
      (line 52): one bracket-wrapped response is enough for line 53 to fail. */
  lemma BracketedResponseMissesKey()
    ensures var r := Record(map[WarcType := "response", TargetUri := "<http://e.com/>",
                                PayloadDigest := "sha1:X"], [], []);
      UnwrapSafe(r) && !Rewritable(r, ResponseKeys([r]))
  {
    var r := Record(map[WarcType := "response", TargetUri := "<http://e.com/>",
                        PayloadDigest := "sha1:X"], [], []);
    assert ResponseKeys([r]) == {KeyOf(r)} by {
      ResponseKeysSnoc([], r);
      assert [] + [r] == [r];
    }
    assert StartsWithBracket(r);
    assert |Unwrap(r).headers[TargetUri]| < |r.headers[TargetUri]|;
    assert KeyOf(Unwrap(r)).uri != KeyOf(r).uri;
  }

  // ----------------------------------------------------------- target naming

  /** `create_warc_target` (lines 189-193); `None` for any other suffix. */
  function CreateWarcTarget(source: string): Option<string> {
    if EndsWith(source, ".warc.gz") then Some(RSplitHead(source, '.', 2) + ".deduplicated.warc.gz")
    else if EndsWith(source, ".warc") then Some(RSplitHead(source, '.', 1) + ".deduplicated.warc")
    else None
  }

  /** The target keeps the source's stem and inserts `.deduplicated` before the
      WARC extension; it never equals the source. */
  lemma CreateWarcTargetFacts(source: string)
    ensures EndsWith(source, ".warc.gz") ==>
      CreateWarcTarget(source) == Some(source[..|source| - 8] + ".deduplicated.warc.gz")
    ensures !EndsWith(source, ".warc.gz") && EndsWith(source, ".warc") ==>
      CreateWarcTarget(source) == Some(source[..|source| - 5] + ".deduplicated.warc")
    ensures CreateWarcTarget(source).None? <==> !EndsWith(source, ".warc.gz") && !EndsWith(source, ".warc")
    ensures CreateWarcTarget(source).Some? ==> CreateWarcTarget(source).value != source
  {
    var n := |source|;
    if EndsWith(source, ".warc.gz") {
      assert source[n - 8..] == ".warc.gz";
      assert source[n - 3] == '.' && source[n - 2] == 'g' && source[n - 1] == 'z';
      assert RFind(source, '.') == n - 3;
      var s1 := source[..n - 3];
      var ext := source[n - 8..];
      assert s1[n - 8] == ext[0] == '.';
      assert s1[n - 7..] == ext[1..5] == "warc";
      assert RFind(s1, '.') == n - 8;
      assert s1[..n - 8] == source[..n - 8];
    } else if EndsWith(source, ".warc") {
      assert source[n - 5..] == ".warc";
      assert source[n - 5] == '.' && source[n - 4..] == "warc";
      assert RFind(source, '.') == n - 5;
    }
  }

  /** Appending three log calls one by one is appending the three. */
  lemma AppendThree(s: seq<LogCall>, a: LogCall, b: LogCall, c: LogCall)
    ensures s + [a] + [b] + [c] == s + [a, b, c]
  {
  }

  // ------------------------------------------------------------ the Warc object

  /** How construction ends: ready, or raising (the target exists, or there is
      no target and `os.path.isfile(None)` raises a TypeError). */
  datatype Setup = Ready | TargetExists(target: string) | NoTarget

  class Warc {
    const warcSource: string
    var warcTarget: Option<string>
    var log: seq<LogCall>
    /** Construction got past the existing-target check of lines 23-25. */
    ghost var ready: bool

    /** Lines 16-22: the target setter runs, then the two opening log lines. */
    constructor (warcSource: string, warcTarget: Option<string>)
      ensures this.warcSource == warcSource
      ensures this.warcTarget == CreateWarcTarget(warcSource)
      ensures log == [Log(SourceIs(warcSource)), Log(TargetIs(this.warcTarget))]
      ensures !ready
    {
      this.warcSource := warcSource;
      this.warcTarget := None;
      log := [];
      ready := false;
      new;
      SetWarcTarget(warcTarget);
      log := log + [Log(SourceIs(warcSource)), Log(TargetIs(this.warcTarget))];
    }

    /** The `warc_target` setter (lines 182-186): the argument is stored and then
        overwritten by the name derived from the source. */
    method SetWarcTarget(value: Option<string>)
      modifies this`warcTarget
      ensures warcTarget == CreateWarcTarget(warcSource)
    {
      if value.Some? {
        warcTarget := value;
      }
      warcTarget := CreateWarcTarget(warcSource);
    }

    /** Lines 23-25: refuse a target that already exists. */
    method CheckTarget(isFile: string -> bool) returns (setup: Setup)
      modifies this`log, this`ready
      ensures ready <==> setup == Ready
      ensures warcTarget.None? ==> setup == NoTarget
      ensures warcTarget.Some? ==> (setup == TargetExists(warcTarget.value) <==> isFile(warcTarget.value))
      ensures warcTarget.Some? ==> (setup == Ready <==> !isFile(warcTarget.value))
      ensures log == old(log) + (if setup.TargetExists? then [Log(TargetAlreadyExists(setup.target))] else [])
    {
      if warcTarget.None? {
        setup := NoTarget;
      } else if isFile(warcTarget.value) {
        log := log + [Log(TargetAlreadyExists(warcTarget.value))];
        setup := TargetExists(warcTarget.value);
      } else {
        setup := Ready;
      }
      ready := setup == Ready;
    }

    /** `Warc(warc_source, warc_target)` (lines 16-25): the object is `ready` for
        `deduplicate` exactly when construction did not raise. */
    static method Open(warcSource: string, warcTarget: Option<string>, isFile: string -> bool)
      returns (w: Warc, setup: Setup)
      ensures fresh(w) && w.warcSource == warcSource && w.warcTarget == CreateWarcTarget(warcSource)
      ensures w.ready <==> setup == Ready
      ensures setup == Ready <==> w.warcTarget.Some? && !isFile(w.warcTarget.value)
      ensures setup.TargetExists? <==> w.warcTarget.Some? && isFile(w.warcTarget.value)
      ensures w.log == [Log(SourceIs(warcSource)), Log(TargetIs(w.warcTarget))]
        + (if setup.TargetExists? then [Log(TargetAlreadyExists(setup.target))] else [])
    {
      w := new Warc(warcSource, warcTarget);
      setup := w.CheckTarget(isFile);
    }

    /** `fetch_from_ia` (lines 141-146); `None` when the lookup phase raises
        because there is no key to look up. */
    method FetchFromIa(iaData: map<Key, IaResult>, net: Net, quote: string -> string)
      returns (resolved: Option<map<Key, IaResult>>)
      requires Resolvable(iaData.Keys, net, quote)
      modifies this`log
      ensures resolved.None? <==> iaData == map[]
      ensures resolved.Some? ==> resolved.value == IaData(iaData.Keys, net, quote)
      ensures log == old(log) + [Log(FetchingFromIa)] + (if resolved.Some? then [Log(FetchedFromIa)] else [])
    {
      log := log + [Log(FetchingFromIa)];
      resolved := ResolveKeys(iaData, net, quote);
      if resolved.None? {
        return;
      }
      IaDataExt(resolved.value, iaData.Keys, net, quote);
      log := log + [Log(FetchedFromIa)];
    }

    /** `deduplicate` (lines 27-76): pass 1, the lookup phase, pass 2 and the log
        record last. The network is `net` (with `quote` for `urllib.parse.quote`)
        and `logRecord` stands for `Log.create_record`. A file without a response
        record raises in the lookup phase, before the target is opened: `None`. */
    method Deduplicate(records: seq<Record>, net: Net, quote: string -> string, logRecord: seq<LogCall> -> Record)
      returns (output: Option<seq<Record>>, gzip: bool)
      requires ready && warcTarget.Some?
      requires Resolvable(ResponseKeys(records), net, quote)
      requires forall i :: 0 <= i < |records| ==> Rewritable(records[i], ResponseKeys(records))
      modifies this`log
      ensures output.None? <==> NoResponse(records)
      ensures output.None? ==> log == old(log) + [Log(StartDeduplication), Log(FetchingFromIa)]
      ensures output.Some? ==>
        var ia, target := IaData(ResponseKeys(records), net, quote), warcTarget.value;
        && gzip == EndsWith(target, ".gz")
        && |output.value| == |records| + 1
        && (forall i :: 0 <= i < |records| ==> output.value[i] == RewriteRecord(records[i], ia, target).0)
        && log == old(log) + [Log(StartDeduplication), Log(FetchingFromIa), Log(FetchedFromIa)]
             + RewriteLog(records, ia, target) + [Log(WritingLog)]
        && output.value[|records|] == logRecord(log)
    {
      var resolved := LookupPhase(records, net, quote);
      output, gzip := WriteTarget(records, resolved, logRecord);
    }

    /** Lines 28-36: the opening log line, pass 1 collecting the keys, then the
        lookup phase resolving them; `None` when the lookup phase raises. */
    method LookupPhase(records: seq<Record>, net: Net, quote: string -> string)
      returns (resolved: Option<map<Key, IaResult>>)
      requires Resolvable(ResponseKeys(records), net, quote)
      modifies this`log
      ensures resolved.None? <==> NoResponse(records)
      ensures resolved.Some? ==> resolved.value == IaData(ResponseKeys(records), net, quote)
      ensures resolved.None? ==> log == old(log) + [Log(StartDeduplication), Log(FetchingFromIa)]
      ensures resolved.Some? ==> log == old(log) + [Log(StartDeduplication), Log(FetchingFromIa), Log(FetchedFromIa)]
    {
      log := log + [Log(StartDeduplication)];
      var iaData := CollectKeys(records);
      resolved := FetchFromIa(iaData, net, quote);
      if resolved.Some? {
        assert resolved.value == IaData(ResponseKeys(records), net, quote);
        AppendThree(old(log), Log(StartDeduplication), Log(FetchingFromIa), Log(FetchedFromIa));
      } else {
        assert old(log) + [Log(StartDeduplication)] + [Log(FetchingFromIa)] + [] == old(log) + [Log(StartDeduplication), Log(FetchingFromIa)];
      }
    }

    /** Lines 38-76: pass 2 into the target, then the log record; never reached
        (`None`) when the lookup phase raised. */
    method WriteTarget(records: seq<Record>, resolved: Option<map<Key, IaResult>>, logRecord: seq<LogCall> -> Record)
      returns (output: Option<seq<Record>>, gzip: bool)
      requires warcTarget.Some?
      requires resolved.Some? ==> forall i :: 0 <= i < |records| ==> Rewritable(records[i], resolved.value.Keys)
      modifies this`log
      ensures output.None? <==> resolved.None?
      ensures output.None? ==> log == old(log) && !gzip
      ensures output.Some? ==>
        var ia, target := resolved.value, warcTarget.value;
        && gzip == EndsWith(target, ".gz")
        && |output.value| == |records| + 1
        && (forall i :: 0 <= i < |records| ==> output.value[i] == RewriteRecord(records[i], ia, target).0)
        && log == old(log) + RewriteLog(records, ia, target) + [Log(WritingLog)]
        && output.value[|records|] == logRecord(log)
    {
      if resolved.None? {
        return None, false;
      }
      gzip := EndsWith(warcTarget.value, ".gz");
      var written, calls := RewriteRecords(records, resolved.value, warcTarget.value);
      log := log + calls + [Log(WritingLog)];
      output := Some(written + [logRecord(log)]);
    }
  }

}
