/**
 * WARC records as both deduplicators see them, and the header set of the
 * revisit record that replaces a response under the `identical-payload-digest`
 * revisit profile of WARC 1.0 (ISO 28500; section 6.7.2 of WARC 1.1).
 */
module WarcRecords {
  import opened Wrappers

  /** The WARC header block: name to value. `replace_header` is map update and
      `remove_header` is removal of the key. */
  type Headers = map<string, string>

  /** A record: its WARC headers, its HTTP headers (carried along, never read)
      and its payload. */
  datatype Record = Record(headers: Headers, httpHeaders: seq<(string, string)>, payload: seq<bv8>)

  const WarcType := "WARC-Type"
  const TargetUri := "WARC-Target-URI"
  const RecordId := "WARC-Record-ID"
  const PayloadDigest := "WARC-Payload-Digest"
  const BlockDigest := "WARC-Block-Digest"
  const ContentLength := "Content-Length"
  const Filename := "WARC-Filename"
  const RefersTo := "WARC-Refers-To"
  const RefersToDate := "WARC-Refers-To-Date"
  const RefersToTargetUri := "WARC-Refers-To-Target-URI"
  const Truncated := "WARC-Truncated"
  const Profile := "WARC-Profile"

  const IdenticalPayloadDigest := "http://netpreserve.org/warc/1.0/revisit/identical-payload-digest"

  /** `rec_headers.get_header(name)`: the value, or `None` when the header is absent. */
  function GetHeader(h: Headers, name: string): Option<string> {
    if name in h then Some(h[name]) else None
  }

  predicate IsType(r: Record, t: string) {
    GetHeader(r.headers, WarcType) == Some(t)
  }

  predicate IsResponse(r: Record) {
    IsType(r, "response")
  }

  /** The headers the revisit rewrite sets. */
  function SetByRevisit(refersTo: Option<string>): set<string> {
    {RefersToDate, RefersToTargetUri, WarcType, Truncated, Profile}
    + (if refersTo.Some? then {RefersTo} else {})
  }

  /** Reference definition of a revisit record's headers, built from a response's
      headers h: the refers-to fields, the type, the truncation marker and the
      profile are set, the block digest and content length are dropped, and every
      other header keeps its value. */
  function RevisitHeaders(h: Headers, refersTo: Option<string>, date: string, targetUri: string): Headers {
    map k | k in (h.Keys - {BlockDigest, ContentLength}) + SetByRevisit(refersTo) ::
      if k == RefersToDate then date
      else if k == RefersToTargetUri then targetUri
      else if k == WarcType then "revisit"
      else if k == Truncated then "length"
      else if k == Profile then IdenticalPayloadDigest
      else if k == RefersTo && refersTo.Some? then refersTo.value
      else h[k]
  }

  /** The same headers as the edits `replace_header`/`remove_header` make, in order. */
  function EditedHeaders(h: Headers, refersTo: Option<string>, date: string, targetUri: string): Headers {
    var h1 := if refersTo.Some? then h[RefersTo := refersTo.value] else h;
    var h2 := h1[RefersToDate := date][RefersToTargetUri := targetUri][WarcType := "revisit"];
    h2[Truncated := "length"][Profile := IdenticalPayloadDigest] - {BlockDigest} - {ContentLength}
  }

  /** The edits leave the headers the revisit definition has. */
  lemma EditedKeys(h: Headers, refersTo: Option<string>, date: string, targetUri: string)
    ensures EditedHeaders(h, refersTo, date, targetUri).Keys == RevisitHeaders(h, refersTo, date, targetUri).Keys
  {
    var touched := SetByRevisit(refersTo);
    assert BlockDigest !in touched && ContentLength !in touched;
    assert EditedHeaders(h, refersTo, date, targetUri).Keys == (h.Keys + touched) - {BlockDigest} - {ContentLength};
  }

  /** The edits one after another build exactly the revisit headers. */
  lemma EditsGiveRevisitHeaders(h: Headers, refersTo: Option<string>, date: string, targetUri: string)
    ensures EditedHeaders(h, refersTo, date, targetUri) == RevisitHeaders(h, refersTo, date, targetUri)
  {
    var e := EditedHeaders(h, refersTo, date, targetUri);
    var v := RevisitHeaders(h, refersTo, date, targetUri);
    EditedKeys(h, refersTo, date, targetUri);
    forall k | k in e ensures e[k] == v[k] {
    }
  }

  /** The record `create_warc_record(uri, 'revisit', warc_headers=..., http_headers=...)`
      returns: the rewritten headers, the original HTTP headers and no payload. */
  function Revisit(r: Record, refersTo: Option<string>, date: string, targetUri: string): Record {
    Record(RevisitHeaders(r.headers, refersTo, date, targetUri), r.httpHeaders, [])
  }

  /** What a revisit record says, header by header. */
  lemma RevisitFacts(r: Record, refersTo: Option<string>, date: string, targetUri: string)
    ensures var v := Revisit(r, refersTo, date, targetUri).headers;
      && GetHeader(v, WarcType) == Some("revisit")
      && GetHeader(v, Truncated) == Some("length")
      && GetHeader(v, Profile) == Some(IdenticalPayloadDigest)
      && GetHeader(v, RefersToDate) == Some(date)
      && GetHeader(v, RefersToTargetUri) == Some(targetUri)
      && GetHeader(v, RefersTo) == (if refersTo.Some? then refersTo else GetHeader(r.headers, RefersTo))
      && GetHeader(v, BlockDigest) == None
      && GetHeader(v, ContentLength) == None
      && (forall k :: k !in {BlockDigest, ContentLength} && k !in SetByRevisit(refersTo) ==>
            GetHeader(v, k) == GetHeader(r.headers, k))
    ensures Revisit(r, refersTo, date, targetUri).httpHeaders == r.httpHeaders
  {
  }
}
