/**
 * The synchronous deduplicator of dedupe.py: one CDX lookup per response
 * record, in file order, with a primary and a fallback lookup window, and
 * the revisit record built from the lookup's answer by slicing.
 */
module Dedupe {
  import opened Wrappers
  import opened PyText
  import opened Timestamp
  import opened WarcRecords
  import opened Lookup

  const CdxSearch := "http://wwwb-dedup.us.archive.org/cdx/search/cdx"

  /** The date restriction of the primary window and of the fallback window. */
  const Windows: seq<string> := ["to=201905310000", "from=20190703000"]

  /** `digest.split(':', 1)[1]` on a digest the lookup accepts: what follows `sha1:`. */
  function QueryDigest(digest: string): (d: string)
    requires StartsWith(digest, "sha1:")
    ensures d == digest[5..]
  {
    assert digest[..5] == "sha1:";
    FindAt(digest, ':', 4);
    SplitOnce(digest, ':')[1]
  }

  /** The query of one window; the URL is inserted without quoting. */
  function Query(url: string, d: string, window: nat): string
    requires window < |Windows|
  {
    CdxSearch + "?url=" + url + "&gzip=false&limit=1&filter=digest:" + d
    + "&fl=timestamp,original&" + Windows[window]
  }

  /** The two windows send different queries. */
  lemma QueriesDiffer(url: string, d: string)
    ensures Query(url, d, 0) != Query(url, d, 1)
  {
    assert |Query(url, d, 0)| < |Query(url, d, 1)|;
  }

  /** `re.search('^\d{14}\ http?s://', text)`: fourteen digits, one space, then
      `https://` or `htts://` (the `?` makes the `p` optional; a plain `http://`
      does not match). */
  predicate Verified(text: string) {
    && |text| > 15 && AllDigits(text[..14]) && text[14] == ' '
    && (StartsWith(text[15..], "https://") || StartsWith(text[15..], "htts://"))
  }

  /** A verified answer splits at its first space into the timestamp and the rest. */
  lemma VerifiedSplit(text: string)
    requires Verified(text)
    ensures SplitOnce(text, ' ') == [text[..14], text[15..]]
    ensures text == text[..14] + " " + text[15..]
  {
    forall j | 0 <= j < 14 ensures text[j] != ' ' {
      assert IsDigit(text[..14][j]);
    }
    FindAt(text, ' ', 14);
  }

  /** What `ia_available` returns: the split answer, `False`, or the abort. */
  datatype Availability = Found(record: seq<string>) | NotFound | Offline

  /** The outcomes of one window's requests, in order. */
  function WindowAttempts(net: Net, url: string, d: string, window: nat): nat -> Attempt
    requires window < |Windows|
  {
    (n: nat) => net(Query(url, d, window), n)
  }

  /** The first body one window receives within `limit` requests, if any. */
  function Answer(net: Net, url: string, d: string, window: nat, limit: nat): Option<string>
    requires window < |Windows|
  {
    var i := FirstAnswer(WindowAttempts(net, url, d, window), 0, limit);
    if i < limit then Some(WindowAttempts(net, url, d, window)(i).text) else None
  }

  /** Lines 37-38 and 57-59: a verified answer is split, any other is `False`. */
  function Decide(text: string): (r: Availability)
    ensures r != Offline
    ensures r.Found? <==> Verified(text)
    ensures r.Found? ==> r.record == [text[..14], text[15..]]
  {
    if Verified(text) then
      VerifiedSplit(text);
      Found(SplitOnce(text, ' '))
    else NotFound
  }

  /** `ia_available` (lines 14-59) with the fallback window bounded like the
      primary one: ten requests per window; the fallback is asked only when
      the primary answer does not verify. */
  function Available(url: string, digest: string, net: Net): (r: Availability)
    requires StartsWith(digest, "sha1:")
    ensures r.Found? ==>
      |r.record| == 2 && |r.record[0]| == 14 && AllDigits(r.record[0]) && Verified(r.record[0] + " " + r.record[1])
    ensures var d := QueryDigest(digest);
      var a0 := Answer(net, url, d, 0, AttemptsPerWindow);
      var a1 := Answer(net, url, d, 1, AttemptsPerWindow);
      && (a0.Some? && Verified(a0.value) ==> r == Found([a0.value[..14], a0.value[15..]]))
      && (a0.Some? && !Verified(a0.value) && a1.Some? ==> r == Decide(a1.value))
  {
    var d := QueryDigest(digest);
    match Answer(net, url, d, 0, AttemptsPerWindow)
    case None => Offline
    case Some(t) =>
      if Verified(t) then
        VerifiedSplit(t);
        Decide(t)
      else
        match Answer(net, url, d, 1, AttemptsPerWindow)
        case None => Offline
        case Some(t') =>
          if Verified(t') then VerifiedSplit(t'); Decide(t') else NotFound
  }

  /** The lookup aborts exactly when a window it asks gets no body in ten requests. */
  lemma AvailableOffline(url: string, digest: string, net: Net)
    requires StartsWith(digest, "sha1:")
    ensures var d := QueryDigest(digest);
      Available(url, digest, net) == Offline <==>
        || Answer(net, url, d, 0, AttemptsPerWindow).None?
        || (!Verified(Answer(net, url, d, 0, AttemptsPerWindow).value)
            && Answer(net, url, d, 1, AttemptsPerWindow).None?)
  {
  }

  /** When the primary window's answer verifies, the fallback window does not
      matter: two networks that agree on the primary query give the same result. */
  lemma {:induction false} PrimaryDecides(url: string, digest: string, net: Net, net': Net)
    requires StartsWith(digest, "sha1:")
    requires forall n :: net(Query(url, QueryDigest(digest), 0), n) == net'(Query(url, QueryDigest(digest), 0), n)
    requires var a := Answer(net, url, QueryDigest(digest), 0, AttemptsPerWindow); a.Some? && Verified(a.value)
    ensures Available(url, digest, net) == Available(url, digest, net')
  {
    var d := QueryDigest(digest);
    var a := WindowAttempts(net, url, d, 0);
    var a' := WindowAttempts(net', url, d, 0);
    SameAttemptsSameAnswer(a, a', 0, AttemptsPerWindow);
    var i := FirstAnswer(a, 0, AttemptsPerWindow);
    assert a(i) == a'(i);
  }

  /** The first answer only depends on the attempts it looks at. */
  lemma {:induction false} SameAttemptsSameAnswer(a: nat -> Attempt, a': nat -> Attempt, from: nat, limit: nat)
    requires from <= limit
    requires forall j :: from <= j < limit ==> a(j) == a'(j)
    ensures FirstAnswer(a, from, limit) == FirstAnswer(a', from, limit)
    decreases limit - from
  {
    if from < limit && a(from).TransportError? {
      SameAttemptsSameAnswer(a, a', from + 1, limit);
    }
  }

  /** `ia_available` exactly as written: the second loop never increments
      `tries`, so its abort is unreachable and it retries for as long as
      connections fail. `fuel` bounds the fallback requests looked at; `None`
      means the lookup is still retrying after that many. */
  function AvailableAsWritten(url: string, digest: string, net: Net, fuel: nat): Option<Availability>
    requires StartsWith(digest, "sha1:")
  {
    var d := QueryDigest(digest);
    match Answer(net, url, d, 0, AttemptsPerWindow)
    case None => Some(Offline)
    case Some(t) =>
      if Verified(t) then Some(Decide(t))
      else
        match Answer(net, url, d, 1, fuel)
        case None => None
        case Some(t') => Some(Decide(t'))
  }

  /** As written, the abort can only come from the primary window. */
  lemma AsWrittenOfflineOnlyFromPrimary(url: string, digest: string, net: Net, fuel: nat)
    requires StartsWith(digest, "sha1:")
    ensures AvailableAsWritten(url, digest, net, fuel) == Some(Offline) <==>
      Answer(net, url, QueryDigest(digest), 0, AttemptsPerWindow).None?
  {
  }

  /** Whenever the fallback answers within ten requests, the code as written
      and the bounded lookup agree. */
  lemma AsWrittenAgrees(url: string, digest: string, net: Net, fuel: nat)
    requires StartsWith(digest, "sha1:")
    requires AttemptsPerWindow <= fuel
    requires Answer(net, url, QueryDigest(digest), 1, AttemptsPerWindow).Some?
    ensures AvailableAsWritten(url, digest, net, fuel) == Some(Available(url, digest, net))
  {
    var a := WindowAttempts(net, url, QueryDigest(digest), 1);
    FirstAnswerStable(a, 0, AttemptsPerWindow, fuel);
  }

  /** An unverified primary answer followed by a fallback that never connects:
      the bounded lookup aborts after ten fallback requests, but the code as
      written is still retrying after any number of them. */
  lemma {:induction false} AsWrittenNeverAborts(url: string, digest: string, net: Net, fuel: nat)
    requires StartsWith(digest, "sha1:")
    requires var d := QueryDigest(digest);
      net(Query(url, d, 0), 0).Received? && !Verified(net(Query(url, d, 0), 0).text)
    requires forall n :: net(Query(url, QueryDigest(digest), 1), n) == TransportError
    ensures Available(url, digest, net) == Offline
    ensures AvailableAsWritten(url, digest, net, fuel).None?
  {
    var d := QueryDigest(digest);
    FirstAnswerAt(WindowAttempts(net, url, d, 0), 0, AttemptsPerWindow, 0);
    var b := WindowAttempts(net, url, d, 1);
    assert forall n :: b(n) == TransportError;
    assert FirstAnswer(b, 0, AttemptsPerWindow) == AttemptsPerWindow;
    assert FirstAnswer(b, 0, fuel) == fuel;
  }

  /** Such a network exists: the primary query answers `x`, every other request fails. */
  lemma AsWrittenNeverAbortsExample(url: string, fuel: nat)
    ensures var net: Net := (q: string, n: nat) => if q == Query(url, "X", 0) then Received("x") else TransportError;
      && Available(url, "sha1:X", net) == Offline
      && AvailableAsWritten(url, "sha1:X", net, fuel).None?
  {
    var net: Net := (q: string, n: nat) => if q == Query(url, "X", 0) then Received("x") else TransportError;
    assert QueryDigest("sha1:X") == "X";
    QueriesDiffer(url, "X");
    AsWrittenNeverAborts(url, "sha1:X", net, fuel);
  }

  /** One window of `ia_available` (lines 19-36, and 39-56 with `tries`
      incremented): up to ten requests, stopping at the first that connects. */
  method FirstBody(url: string, d: string, window: nat, net: Net) returns (body: Option<string>)
    requires window < |Windows|
    ensures body == Answer(net, url, d, window, AttemptsPerWindow)
  {
    var tries := 0;
    while true
      invariant 0 <= tries <= AttemptsPerWindow
      invariant forall j :: 0 <= j < tries ==> WindowAttempts(net, url, d, window)(j).TransportError?
      decreases AttemptsPerWindow - tries
    {
      if tries > 9 {
        return None;
      }
      tries := tries + 1;
      var outcome := net(Query(url, d, window), tries - 1);
      if outcome.Received? {
        FirstAnswerAt(WindowAttempts(net, url, d, window), 0, AttemptsPerWindow, tries - 1);
        return Some(outcome.text);
      }
    }
  }

  /** `ia_available` (lines 14-59), with the fallback bounded. */
  method IaAvailable(url: string, digest: string, net: Net) returns (r: Availability)
    requires StartsWith(digest, "sha1:")
    ensures r == Available(url, digest, net)
  {
    var d := QueryDigest(digest);
    var primary := FirstBody(url, d, 0, net);
    if primary.None? {
      return Offline;
    }
    if Verified(primary.value) {
      return Decide(primary.value);
    }
    var fallback := FirstBody(url, d, 1, net);
    if fallback.None? {
      return Offline;
    }
    r := Decide(fallback.value);
  }

  /** The `WARC-Refers-To-Date` of lines 63-65, built by slicing. */
  function SlicedDate(ts: string): string {
    Slice(ts, 0, 4) + "-" + Slice(ts, 4, 6) + "-" + Slice(ts, 6, 8) + "T"
    + Slice(ts, 8, 10) + ":" + Slice(ts, 10, 12) + ":" + Slice(ts, 12, 14) + "Z"
  }

  /** On a 14-character timestamp the slicing gives the WARC date layout, and on a
      valid one the same date the asynchronous client renders with `strftime`. */
  lemma SlicedDateAgrees(ts: string)
    requires |ts| == 14
    ensures SlicedDate(ts) == IsoLayout(ts)
    ensures ValidTimestamp(ts) ==> SlicedDate(ts) == Strftime(Strptime(ts))
  {
    if ValidTimestamp(ts) {
      RenderParsed(ts);
    }
  }

  /** `revisit_record` (lines 61-78): the header edits, one after another. */
  method RevisitRecord(record: Record, iaRecord: seq<string>) returns (revisit: Record)
    requires |iaRecord| >= 2
    ensures revisit == Revisit(record, None, SlicedDate(iaRecord[0]), iaRecord[1])
  {
    var h := record.headers;
    var ts := iaRecord[0];
    h := h[RefersToDate := Slice(ts, 0, 4) + "-" + Slice(ts, 4, 6) + "-" + Slice(ts, 6, 8) + "T"
                           + Slice(ts, 8, 10) + ":" + Slice(ts, 10, 12) + ":" + Slice(ts, 12, 14) + "Z"];
    h := h[RefersToTargetUri := iaRecord[1]];
    h := h[WarcType := "revisit"];
    h := h[Truncated := "length"];
    h := h[Profile := IdenticalPayloadDigest];
    h := h - {BlockDigest};
    h := h - {ContentLength};
    assert h == EditedHeaders(record.headers, None, SlicedDate(ts), iaRecord[1]);
    EditsGiveRevisitHeaders(record.headers, None, SlicedDate(ts), iaRecord[1]);
    revisit := Record(h, record.httpHeaders, []);
  }

  // ---------------------------------------------------------------- process

  /** Why a run stops early: the lookup aborted (line 26), a response lacks its
      URI or digest (the concatenation of line 15 raises a TypeError), or its
      digest is not `sha1:` (the `assert` of line 16). */
  datatype Stop = ApiOffline | MissingHeader | NotSha1

  /** What the loop of `process` does with one record: write a record (and
      count a hit or a miss), or stop. */
  datatype Step = Written(record: Record, hit: bool, miss: bool) | Halted(reason: Stop)

  /** Lines 88-100 on one record, whose lookup sees the network `net`. */
  function StepOf(r: Record, net: Net): Step {
    if !IsResponse(r) then Written(r, false, true)
    else if TargetUri !in r.headers || PayloadDigest !in r.headers then Halted(MissingHeader)
    else if !StartsWith(r.headers[PayloadDigest], "sha1:") then Halted(NotSha1)
    else
      match Available(r.headers[TargetUri], r.headers[PayloadDigest], net)
      case Offline => Halted(ApiOffline)
      case NotFound => Written(r, false, false)
      case Found(ia) => Written(Revisit(r, None, SlicedDate(ia[0]), ia[1]), true, false)
  }

  /** A response whose lookup `process` can run: both headers are present and
      the digest is a `sha1:` one. */
  predicate Lookupable(r: Record) {
    TargetUri in r.headers && PayloadDigest in r.headers && StartsWith(r.headers[PayloadDigest], "sha1:")
  }

  /** The lookup of a response decides what is written for it: a revisit
      referring to the capture found, the response itself when none is found,
      and nothing (an abort) when the service is offline. */
  lemma StepFacts(r: Record, net: Net)
    requires IsResponse(r) && Lookupable(r)
    ensures var a := Available(r.headers[TargetUri], r.headers[PayloadDigest], net);
      && (a == Offline <==> StepOf(r, net) == Halted(ApiOffline))
      && (a == NotFound <==> StepOf(r, net) == Written(r, false, false))
      && (a.Found? <==> StepOf(r, net).Written? && IsType(StepOf(r, net).record, "revisit"))
      && (a.Found? ==> StepOf(r, net).record == Revisit(r, None, IsoLayout(a.record[0]), a.record[1]))
  {
    var a := Available(r.headers[TargetUri], r.headers[PayloadDigest], net);
    if a.Found? {
      SlicedDateAgrees(a.record[0]);
      RevisitFacts(r, None, SlicedDate(a.record[0]), a.record[1]);
    }
  }

  /** The state of `process` after some records: what was written, the hit and
      miss counters, and the reason it stopped, if it did. */
  datatype Report = Report(output: seq<Record>, hits: nat, misses: nat, stop: Option<Stop>)

  /** The loop of `process` over the outcomes of its records, one after another,
      until one of them stops it. */
  function Fold(steps: seq<Step>): Report
    decreases |steps|
  {
    if steps == [] then Report([], 0, 0, None)
    else
      var prev := Fold(steps[..|steps| - 1]);
      if prev.stop.Some? then prev
      else
        match steps[|steps| - 1]
        case Halted(why) => prev.(stop := Some(why))
        case Written(out, hit, miss) =>
          Report(prev.output + [out], prev.hits + (if hit then 1 else 0), prev.misses + (if miss then 1 else 0), None)
  }

  /** What each record would lead to; the lookup of record i sees `lookups(i)`. */
  function Outcomes(records: seq<Record>, lookups: nat -> Net): (steps: seq<Step>)
    ensures |steps| == |records|
  {
    seq(|records|, i requires 0 <= i < |records| => StepOf(records[i], lookups(i)))
  }

  /** `process` (lines 80-100) on `records`. */
  function Run(records: seq<Record>, lookups: nat -> Net): Report {
    Fold(Outcomes(records, lookups))
  }

  /** Once the loop has stopped, later outcomes change nothing. */
  lemma {:induction false} FoldStaysStopped(steps: seq<Step>, k: nat)
    requires k <= |steps| && Fold(steps[..k]).stop.Some?
    ensures Fold(steps) == Fold(steps[..k])
    decreases |steps| - k
  {
    if k < |steps| {
      var n := |steps|;
      assert steps[..n - 1][..k] == steps[..k];
      FoldStaysStopped(steps[..n - 1], k);
    } else {
      assert steps[..k] == steps;
    }
  }

  /** The loop writes at most one record per outcome, and one for each exactly
      when nothing stopped it. */
  lemma {:induction false} FoldLength(steps: seq<Step>)
    ensures |Fold(steps).output| <= |steps|
    ensures Fold(steps).stop.None? <==> |Fold(steps).output| == |steps|
    decreases |steps|
  {
    if steps != [] {
      FoldLength(steps[..|steps| - 1]);
    }
  }

  /** The loop writes one record per outcome it gets to, in order, and stops
      early only at the first outcome that halts it. */
  lemma {:induction false} FoldShape(steps: seq<Step>)
    ensures var rep := Fold(steps);
      && |rep.output| <= |steps|
      && (rep.stop.None? <==> |rep.output| == |steps|)
      && (forall i :: 0 <= i < |rep.output| ==> steps[i].Written? && rep.output[i] == steps[i].record)
      && (rep.stop.Some? ==> steps[|rep.output|] == Halted(rep.stop.value))
    decreases |steps|
  {
    if steps != [] {
      var n := |steps|;
      FoldShape(steps[..n - 1]);
    }
  }

  /** What a run writes: one record per record it got to, in order; it stops
      early only at the first record that gives one of the three reasons. */
  lemma RunShape(records: seq<Record>, lookups: nat -> Net)
    ensures var rep := Run(records, lookups);
      && |rep.output| <= |records|
      && (rep.stop.None? <==> |rep.output| == |records|)
      && (forall i :: 0 <= i < |rep.output| ==>
            StepOf(records[i], lookups(i)).Written? && rep.output[i] == StepOf(records[i], lookups(i)).record)
      && (rep.stop.Some? ==> StepOf(records[|rep.output|], lookups(|rep.output|)) == Halted(rep.stop.value))
  {
    var steps := Outcomes(records, lookups);
    FoldShape(steps);
    assert forall i :: 0 <= i < |records| ==> steps[i] == StepOf(records[i], lookups(i));
  }

  /** Every record a run writes is the record read, except a response whose
      lookup found a capture: that one becomes the revisit referring to it. */
  lemma RunDecides(records: seq<Record>, lookups: nat -> Net)
    ensures var rep := Run(records, lookups);
      && |rep.output| <= |records|
      && forall i :: 0 <= i < |rep.output| ==>
        && (!IsResponse(records[i]) ==> rep.output[i] == records[i])
        && (IsResponse(records[i]) ==> Lookupable(records[i]))
        && (IsResponse(records[i]) ==>
              var a := Available(records[i].headers[TargetUri], records[i].headers[PayloadDigest], lookups(i));
              && (a.Found? <==> IsType(rep.output[i], "revisit"))
              && (a.Found? ==> rep.output[i] == Revisit(records[i], None, IsoLayout(a.record[0]), a.record[1]))
              && (!a.Found? ==> rep.output[i] == records[i]))
  {
    var rep := Run(records, lookups);
    RunShape(records, lookups);
    forall i | 0 <= i < |rep.output| && IsResponse(records[i])
      ensures Lookupable(records[i])
      ensures var a := Available(records[i].headers[TargetUri], records[i].headers[PayloadDigest], lookups(i));
        && (a.Found? <==> IsType(rep.output[i], "revisit"))
        && (a.Found? ==> rep.output[i] == Revisit(records[i], None, IsoLayout(a.record[0]), a.record[1]))
        && (!a.Found? ==> rep.output[i] == records[i])
    {
      StepFacts(records[i], lookups(i));
    }
  }

  /** The responses among `inputs` that were written as revisits. */
  function Hits(inputs: seq<Record>, outputs: seq<Record>): nat
    requires |inputs| == |outputs|
    decreases |inputs|
  {
    if inputs == [] then 0
    else
      var hit := IsResponse(inputs[|inputs| - 1]) && IsType(outputs[|outputs| - 1], "revisit");
      Hits(inputs[..|inputs| - 1], outputs[..|outputs| - 1]) + (if hit then 1 else 0)
  }

  /** The records among `inputs` that are not responses. */
  function NonResponses(inputs: seq<Record>): nat
    decreases |inputs|
  {
    if inputs == [] then 0
    else NonResponses(inputs[..|inputs| - 1]) + (if IsResponse(inputs[|inputs| - 1]) then 0 else 1)
  }

  /** A written record is a hit exactly when a response became a revisit, and a
      miss exactly when the record is not a response. */
  lemma StepCounts(r: Record, net: Net)
    requires StepOf(r, net).Written?
    ensures StepOf(r, net).hit <==> IsResponse(r) && IsType(StepOf(r, net).record, "revisit")
    ensures StepOf(r, net).miss <==> !IsResponse(r)
  {
    if IsResponse(r) && StepOf(r, net).hit {
      var ia := Available(r.headers[TargetUri], r.headers[PayloadDigest], net).record;
      RevisitFacts(r, None, SlicedDate(ia[0]), ia[1]);
    }
  }

  /** The outcome of a record counts a hit exactly when a response becomes a
      revisit, and a miss exactly when the record is not a response. */
  predicate CountsMean(steps: seq<Step>, inputs: seq<Record>)
    requires |steps| == |inputs|
  {
    forall i :: 0 <= i < |steps| && steps[i].Written? ==>
      && (steps[i].hit <==> IsResponse(inputs[i]) && IsType(steps[i].record, "revisit"))
      && (steps[i].miss <==> !IsResponse(inputs[i]))
  }

  /** Both counts grow by the record appended. */
  lemma HitsSnoc(inputs: seq<Record>, outputs: seq<Record>, r: Record, out: Record)
    requires |inputs| == |outputs|
    ensures Hits(inputs + [r], outputs + [out])
      == Hits(inputs, outputs) + (if IsResponse(r) && IsType(out, "revisit") then 1 else 0)
    ensures NonResponses(inputs + [r]) == NonResponses(inputs) + (if IsResponse(r) then 0 else 1)
  {
    assert (inputs + [r])[..|inputs|] == inputs;
    assert (outputs + [out])[..|outputs|] == outputs;
  }

  /** The loop's counters count hits and misses among the outcomes it got to. */
  lemma {:induction false} FoldCounts(steps: seq<Step>, inputs: seq<Record>)
    requires |steps| == |inputs| && CountsMean(steps, inputs)
    ensures var rep := Fold(steps);
      && |rep.output| <= |inputs|
      && rep.hits == Hits(inputs[..|rep.output|], rep.output)
      && rep.misses == NonResponses(inputs[..|rep.output|])
    decreases |steps|
  {
    if steps != [] {
      var n := |steps|;
      var init := inputs[..n - 1];
      var front := steps[..n - 1];
      assert CountsMean(front, init) by {
        forall i | 0 <= i < |front| ensures front[i] == steps[i] && init[i] == inputs[i] {
        }
      }
      FoldCounts(front, init);
      FoldLength(front);
      var prev := Fold(front);
      if prev.stop.Some? {
        assert inputs[..|prev.output|] == init[..|prev.output|];
      } else {
        assert init[..|prev.output|] == init;
        var last := steps[n - 1];
        if last.Written? {
          var rep := Fold(steps);
          assert rep.output == prev.output + [last.record];
          assert inputs[..|rep.output|] == inputs == init + [inputs[n - 1]];
          assert last.hit <==> IsResponse(inputs[n - 1]) && IsType(last.record, "revisit");
          assert last.miss <==> !IsResponse(inputs[n - 1]);
          HitsSnoc(init, prev.output, inputs[n - 1], last.record);
        }
      }
    }
  }

  /** `dedupehit` counts the responses written as revisits and `dedupemiss`
      the records that are not responses, among the records a run got to. */
  lemma RunCounts(records: seq<Record>, lookups: nat -> Net)
    ensures var rep := Run(records, lookups);
      && |rep.output| <= |records|
      && rep.hits == Hits(records[..|rep.output|], rep.output)
      && rep.misses == NonResponses(records[..|rep.output|])
  {
    var steps := Outcomes(records, lookups);
    forall i | 0 <= i < |steps| && steps[i].Written?
      ensures steps[i].hit <==> IsResponse(records[i]) && IsType(steps[i].record, "revisit")
      ensures steps[i].miss <==> !IsResponse(records[i])
    {
      StepCounts(records[i], lookups(i));
    }
    FoldCounts(steps, records);
  }

  /** `process` (lines 80-100): the records in file order, a lookup per response,
      a revisit for every response the lookup found, and a stop at the first
      abort. */
  method Process(records: seq<Record>, lookups: nat -> Net) returns (report: Report)
    ensures report == Run(records, lookups)
  {
    ghost var steps := Outcomes(records, lookups);
    var output: seq<Record> := [];
    var hits, misses := 0, 0;
    var i := 0;
    while i < |records|
      invariant 0 <= i <= |records|
      invariant Fold(steps[..i]) == Report(output, hits, misses, None)
    {
      assert steps[..i + 1][..i] == steps[..i];
      assert steps[i] == StepOf(records[i], lookups(i));
      var record := records[i];
      if IsResponse(record) {
        var url := GetHeader(record.headers, TargetUri);
        var digest := GetHeader(record.headers, PayloadDigest);
        if url.None? || digest.None? {
          report := Report(output, hits, misses, Some(MissingHeader));
          FoldStaysStopped(steps, i + 1);
          return;
        }
        if !StartsWith(digest.value, "sha1:") {
          report := Report(output, hits, misses, Some(NotSha1));
          FoldStaysStopped(steps, i + 1);
          return;
        }
        var ia := IaAvailable(url.value, digest.value, lookups(i));
        if ia.Offline? {
          report := Report(output, hits, misses, Some(ApiOffline));
          FoldStaysStopped(steps, i + 1);
          return;
        }
        if ia.NotFound? {
          output := output + [record];
        } else {
          var revisit := RevisitRecord(record, ia.record);
          output := output + [revisit];
          hits := hits + 1;
        }
      } else {
        output := output + [record];
        misses := misses + 1;
      }
      i := i + 1;
    }
    assert steps[..|records|] == steps;
    report := Report(output, hits, misses, None);
  }
}
