/**
 * `search_adobe_stock` (reverse_search.py, lines 18-160) without its
 * printing: build the URL, fetch it, reject a non-success status, decode the
 * payload and normalise it. The HTTP exchange is the `fetch` parameter; the
 * cookies and headers it carries are constants of the transport and not part
 * of this model. The outcome says which of the script's four endings is
 * reached and what it shows.
 */
module Search {

  import opened Wrappers
  import opened Json
  import opened DateFormat
  import opened RequestBuilder
  import opened StreamDecoder
  import opened Normalizer

  /** What `client.get(url)` produces: a transport failure, or a status and the decoded body. */
  datatype Response =
    | TransportFailure
    | Response(status: int, text: string)

  /** How much of the body the script shows after an HTTP error. */
  const ErrorPreviewLength: nat := 1000

  /** How much of an unrecognised body the script shows instead of results. */
  const PreviewLength: nat := 3000

  /** `s[:n]`. */
  function Prefix(s: string, n: nat): (r: string)
    ensures |r| == Min(n, |s|) && r == s[..|r|]
  {
    if |s| <= n then s else s[..n]
  }

  /** httpx's `is_success`: `raise_for_status` raises for every other status. */
  predicate IsSuccess(status: int)
    ensures IsSuccess(status) <==> status / 100 == 2
  {
    200 <= status < 300
  }

  /** How one search ends. */
  datatype Outcome =
    | HttpError(status: int, body: string) // the `HTTPStatusError` handler: status and the first 1000 characters
    | Preview(body: string)                // no payload found: the first 3000 characters of the body
    | Failed                               // any other exception: the generic error message
    | Results(listing: Listing)            // the header line and one block per image

  method SearchAdobeStock(
    query: string, page: int, aiOnly: bool, raw: bool,
    fetch: string -> Response, parse: string -> Option<Value>, fromIsoFormat: string -> Option<Date>)
    returns (o: Outcome)
    ensures var resp := fetch(SearchUrl(query, page, aiOnly));
      && (resp.TransportFailure? ==> o == Failed)
      && (resp.Response? && !IsSuccess(resp.status) ==> o == HttpError(resp.status, Prefix(resp.text, ErrorPreviewLength)))
    ensures var resp := fetch(SearchUrl(query, page, aiOnly));
      resp.Response? && IsSuccess(resp.status) ==>
        var decoded := if ExtractSpan(resp.text).None? then NoPayload else Interpret(parse(ExtractSpan(resp.text).value));
        && (decoded.NoPayload? ==> o == Preview(Prefix(resp.text, PreviewLength)))
        && (decoded.DecodeFailed? ==> o == Failed)
        && (decoded.Payload? && Normalize(decoded.data, raw, fromIsoFormat).None? ==> o == Failed)
        && (decoded.Payload? && Normalize(decoded.data, raw, fromIsoFormat).Some? ==>
              o == Results(Normalize(decoded.data, raw, fromIsoFormat).value))
    ensures var resp := fetch(SearchUrl(query, page, aiOnly));
      resp.Response? && IsSuccess(resp.status) && Find(resp.text, Marker) == -1 ==>
        o == Preview(Prefix(resp.text, PreviewLength))
    ensures o.Results? ==> o.listing.found == |o.listing.entries|
  {
    var url := BuildSearchUrl(query, page, aiOnly);
    var response := fetch(url);
    if response.TransportFailure? {
      return Failed;
    }
    if !IsSuccess(response.status) {
      return HttpError(response.status, Prefix(response.text, ErrorPreviewLength));
    }
    var decoded := Decode(response.text, parse);
    match decoded
    case NoPayload =>
      o := Preview(Prefix(response.text, PreviewLength));
    case DecodeFailed =>
      o := Failed;
    case Payload(data) =>
      match Normalize(data, raw, fromIsoFormat)
      case None =>
        o := Failed;
      case Some(listing) =>
        o := Results(listing);
  }
}
