/**
 * The search request URL (reverse_search.py, `search_adobe_stock`): the
 * encoded query, the AI-only filter when asked for, the page number past the
 * first page, and the fixed streaming-transport marker, in that order.
 */
module RequestBuilder {

  import opened Wrappers
  import opened Text
  import opened FormEncoding

  const BaseUrl: string := "https://trackadobestock.com/search"

  /** A `key=value` pair of a URL query. */
  type Parameter = (string, string)

  /** The URL the script requests, as its successive appends build it. */
  function SearchUrl(query: string, page: int, aiOnly: bool): (url: string)
    ensures |BaseUrl| < |url| && url[..|BaseUrl|] == BaseUrl && url[|BaseUrl|] == '?'
  {
    BaseUrl + "?q=" + QuotePlus(query)
    + (if aiOnly then "&generative_ai=only" else "")
    + (if page > 1 then "&page=" + Decimal(page) else "")
    + "&_rsc=1gn38"
  }

  /** The parameters the server is meant to read from that URL, in order. */
  function Parameters(query: string, page: int, aiOnly: bool): seq<Parameter>
  {
    [("q", QuotePlus(query))]
    + (if aiOnly then [("generative_ai", "only")] else [])
    + (if page > 1 then [("page", Decimal(page))] else [])
    + [("_rsc", "1gn38")]
  }

  /** One `key=value` piece, split at its first `=`; a piece without `=` is a key with an empty value. */
  function KeyValue(piece: string): Parameter
  {
    if '=' in piece then
      var k := IndexOf(piece, '=');
      (piece[..k], piece[k + 1..])
    else
      (piece, "")
  }

  function KeyValues(pieces: seq<string>): (ps: seq<Parameter>)
    ensures |ps| == |pieces|
  {
    if pieces == [] then [] else [KeyValue(pieces[0])] + KeyValues(pieces[1..])
  }

  /** A URL read the way a server reads it: the part before the first `?`, then the `&`-separated parameters after it. */
  function SplitUrl(url: string): Option<(string, seq<Parameter>)>
  {
    if '?' in url then
      var k := IndexOf(url, '?');
      Some((url[..k], KeyValues(Split(url[k + 1..], '&'))))
    else
      None
  }

  /** The value of the first parameter named `key`. */
  function Lookup(ps: seq<Parameter>, key: string): Option<string>
  {
    if ps == [] then None
    else if ps[0].0 == key then Some(ps[0].1)
    else Lookup(ps[1..], key)
  }

  /** Builds the search URL by successive appends, as the script does. */
  method BuildSearchUrl(query: string, page: int, aiOnly: bool) returns (url: string)
    ensures url == SearchUrl(query, page, aiOnly)
    ensures SplitUrl(url) == Some((BaseUrl, Parameters(query, page, aiOnly)))
  {
    var encodedQuery := QuotePlus(query);
    url := BaseUrl + "?q=" + encodedQuery;
    ghost var start := url;
    if aiOnly {
      url := url + "&generative_ai=only";
    }
    ghost var filtered := url;
    assert filtered == start + (if aiOnly then "&generative_ai=only" else "");
    if page > 1 {
      url := url + ("&page=" + Decimal(page));
    }
    assert url == filtered + (if page > 1 then "&page=" + Decimal(page) else "");
    url := url + "&_rsc=1gn38";
    SearchUrlParameters(query, page, aiOnly);
  }

  lemma KeyValueAt(key: string, value: string)
    requires '=' !in key
    ensures KeyValue(key + "=" + value) == (key, value)
  {
    IndexAfterPrefix(key, '=', value);
    var piece := key + "=" + value;
    assert piece[..|key|] == key;
    assert piece[|key| + 1..] == value;
  }

  /** The text `key=value`. */
  function Piece(p: Parameter): string
  {
    p.0 + "=" + p.1
  }

  /** The text `&key=value` for each parameter, in order. */
  function Appended(ps: seq<Parameter>): string
  {
    if ps == [] then "" else ['&'] + Piece(ps[0]) + Appended(ps[1..])
  }

  /** A parameter that splitting at `&` and `=` reads back unchanged. */
  predicate Separable(p: Parameter)
  {
    '&' !in p.0 && '=' !in p.0 && '&' !in p.1
  }

  /** Splitting `k=v&k1=v1&...` at `&` and each piece at its first `=` gives back the parameters. */
  lemma {:induction false} ReadAppended(first: Parameter, rest: seq<Parameter>)
    requires Separable(first)
    requires forall i :: 0 <= i < |rest| ==> Separable(rest[i])
    ensures KeyValues(Split(Piece(first) + Appended(rest), '&')) == [first] + rest
    decreases |rest|
  {
    if rest == [] {
      ReadPiece(first);
      assert Piece(first) + Appended(rest) == Piece(first);
    } else {
      ReadAppended(rest[0], rest[1..]);
      var next := Piece(rest[0]) + Appended(rest[1..]);
      assert Appended(rest) == ['&'] + next;
      ReadBeforeSeparator(first, next, rest);
      assert Piece(first) + Appended(rest) == Piece(first) + ['&'] + next;
    }
  }

  /** One parameter alone reads back as itself. */
  lemma ReadPiece(p: Parameter)
    requires Separable(p)
    ensures KeyValues(Split(Piece(p), '&')) == [p]
  {
    KeyValueAt(p.0, p.1);
    PieceAvoids(p, '&');
    assert Split(Piece(p), '&') == [Piece(p)];
  }

  /** A parameter followed by `&` and text that reads back as `ps` reads back as the parameter, then `ps`. */
  lemma ReadBeforeSeparator(p: Parameter, next: string, ps: seq<Parameter>)
    requires Separable(p)
    requires |ps| >= 1 && KeyValues(Split(next, '&')) == [ps[0]] + ps[1..]
    ensures KeyValues(Split(Piece(p) + ['&'] + next, '&')) == [p] + ps
  {
    KeyValueAt(p.0, p.1);
    PieceAvoids(p, '&');
    SplitAfterSeparator(Piece(p), '&', next);
    var parts := [Piece(p)] + Split(next, '&');
    assert parts[0] == Piece(p) && parts[1..] == Split(next, '&');
    assert [ps[0]] + ps[1..] == ps;
  }

  /** A character in neither the key, the value nor `=` is not in `key=value`. */
  lemma PieceAvoids(p: Parameter, c: char)
    requires c !in p.0 && c != '=' && c !in p.1
    ensures c !in Piece(p)
  {
    assert forall x :: x in Piece(p) ==> x in p.0 || x == '=' || x in p.1;
  }

  lemma ParameterTexts(enc: string, digits: string)
    ensures ['&'] + Piece(("generative_ai", "only")) == "&generative_ai=only"
    ensures ['&'] + Piece(("_rsc", "1gn38")) == "&_rsc=1gn38"
    ensures ['&'] + Piece(("page", digits)) == "&page=" + digits
    ensures Piece(("q", enc)) == "q=" + enc
  {
  }

  /** The appended text of two parameter lists is the text of the first followed by that of the second. */
  lemma {:induction false} AppendedConcat(a: seq<Parameter>, b: seq<Parameter>)
    ensures Appended(a + b) == Appended(a) + Appended(b)
    decreases |a|
  {
    if a == [] {
      assert a + b == b;
    } else {
      assert (a + b)[0] == a[0] && (a + b)[1..] == a[1..] + b;
      AppendedConcat(a[1..], b);
      var head := ['&'] + Piece(a[0]);
      assert Appended(a + b) == head + (Appended(a[1..]) + Appended(b));
      assert Appended(a) == head + Appended(a[1..]);
    }
  }

  /** An optional parameter contributes its `&key=value` text when present and nothing otherwise. */
  lemma AppendedOptional(present: bool, p: Parameter)
    ensures Appended(if present then [p] else []) == (if present then ['&'] + Piece(p) else "")
  {
    if present {
      assert [p][1..] == [];
    }
  }

  /** After the query, the URL carries exactly the remaining parameters, each as `&key=value`. */
  lemma AppendedAfterQuery(query: string, page: int, aiOnly: bool)
    ensures Appended(Parameters(query, page, aiOnly)[1..])
      == (if aiOnly then "&generative_ai=only" else "")
         + (if page > 1 then "&page=" + Decimal(page) else "")
         + "&_rsc=1gn38"
  {
    var digits := if page > 1 then Decimal(page) else "";
    ParameterTexts(QuotePlus(query), digits);
    var ai: seq<Parameter> := if aiOnly then [("generative_ai", "only")] else [];
    var pg: seq<Parameter> := if page > 1 then [("page", digits)] else [];
    var marker: seq<Parameter> := [("_rsc", "1gn38")];
    assert Parameters(query, page, aiOnly)[1..] == ai + pg + marker;
    AppendedConcat(ai + pg, marker);
    AppendedConcat(ai, pg);
    AppendedOptional(aiOnly, ("generative_ai", "only"));
    AppendedOptional(page > 1, ("page", digits));
    AppendedOptional(true, ("_rsc", "1gn38"));
  }

  lemma Reassociate(base: string, enc: string, ai: string, page: string, marker: string)
    ensures base + "?q=" + enc + ai + page + marker == base + "?" + ("q=" + enc + (ai + page + marker))
  {
    assert "?q=" == "?" + "q=";
  }

  /** No key holds `&` or `=` and no value holds `&`: the encoded query is made of form characters, the page of digits. */
  lemma ParametersSeparable(query: string, page: int, aiOnly: bool)
    ensures forall i :: 0 <= i < |Parameters(query, page, aiOnly)| ==> Separable(Parameters(query, page, aiOnly)[i])
  {
    var ps := Parameters(query, page, aiOnly);
    var enc := QuotePlus(query);
    assert Separable(("q", enc)) by {
      assert forall j :: 0 <= j < |enc| ==> IsFormChar(enc[j]);
    }
    if page > 1 {
      var d := Decimal(page);
      assert Separable(("page", d)) by {
        assert forall j :: 0 <= j < |d| ==> IsDigit(d[j]);
      }
    }
  }

  /** The text after `?` is `key=value` of the query, then `&key=value` for each further parameter. */
  lemma QueryStringText(query: string, page: int, aiOnly: bool)
    ensures var ps := Parameters(query, page, aiOnly);
      "q=" + QuotePlus(query)
      + ((if aiOnly then "&generative_ai=only" else "")
         + (if page > 1 then "&page=" + Decimal(page) else "")
         + "&_rsc=1gn38")
      == Piece(ps[0]) + Appended(ps[1..])
  {
    AppendedAfterQuery(query, page, aiOnly);
    ParameterTexts(QuotePlus(query), "");
  }

  /** That text splits back into the parameters. */
  lemma QueryStringReads(query: string, page: int, aiOnly: bool)
    ensures var ps := Parameters(query, page, aiOnly);
      KeyValues(Split(Piece(ps[0]) + Appended(ps[1..]), '&')) == ps
  {
    var ps := Parameters(query, page, aiOnly);
    ParametersSeparable(query, page, aiOnly);
    ReadAppended(ps[0], ps[1..]);
    assert [ps[0]] + ps[1..] == ps;
  }

  /** The parameters read back from any path without `?` followed by the query string the script appends. */
  lemma PathParameters(path: string, query: string, page: int, aiOnly: bool)
    requires '?' !in path
    ensures SplitUrl(path + "?q=" + QuotePlus(query)
      + (if aiOnly then "&generative_ai=only" else "")
      + (if page > 1 then "&page=" + Decimal(page) else "")
      + "&_rsc=1gn38") == Some((path, Parameters(query, page, aiOnly)))
  {
    var ps := Parameters(query, page, aiOnly);
    QueryStringText(query, page, aiOnly);
    QueryStringReads(query, page, aiOnly);
    Reassociate(path, QuotePlus(query), if aiOnly then "&generative_ai=only" else "",
      if page > 1 then "&page=" + Decimal(page) else "", "&_rsc=1gn38");
    SplitUrlAt(path, Piece(ps[0]) + Appended(ps[1..]));
  }

  /** A server splitting the URL at `?`, `&` and `=` finds exactly the intended parameters, in the intended order. */
  lemma SearchUrlParameters(query: string, page: int, aiOnly: bool)
    ensures SplitUrl(SearchUrl(query, page, aiOnly)) == Some((BaseUrl, Parameters(query, page, aiOnly)))
  {
    BaseUrlHasNoQuery();
    PathParameters(BaseUrl, query, page, aiOnly);
  }

  lemma BaseUrlHasNoQuery()
    ensures '?' !in BaseUrl
  {
  }

  /** The first `?` separates the path from the query string. */
  lemma SplitUrlAt(path: string, query: string)
    requires '?' !in path
    ensures SplitUrl(path + "?" + query) == Some((path, KeyValues(Split(query, '&'))))
  {
    IndexAfterPrefix(path, '?', query);
    var url := path + "?" + query;
    assert url[..|path|] == path;
    assert url[|path| + 1..] == query;
  }

  /** What the server reads back from the URL: the query itself, the filter iff asked for, the page iff past the first, and always the transport marker, last. */
  lemma SearchUrlReadBack(query: string, page: int, aiOnly: bool)
    ensures var ps := Parameters(query, page, aiOnly);
      && Lookup(ps, "q").Some? && UnquotePlus(Lookup(ps, "q").value) == Some(query)
      && Lookup(ps, "generative_ai") == (if aiOnly then Some("only") else None)
      && Lookup(ps, "page") == (if page > 1 then Some(Decimal(page)) else None)
      && (page > 1 ==> DecimalValue(Decimal(page)) == page)
      && ps[|ps| - 1] == ("_rsc", "1gn38")
  {
    QuotePlusRoundTrip(query);
    var ps := Parameters(query, page, aiOnly);
    var marker := [("_rsc", "1gn38")];
    var withPage := (if page > 1 then [("page", Decimal(page))] else []) + marker;
    assert Lookup(marker, "generative_ai") == None && Lookup(marker, "page") == None;
    if page > 1 {
      assert withPage[1..] == marker;
      DecimalRoundTrip(page);
    } else {
      assert withPage == marker;
    }
    assert Lookup(withPage, "generative_ai") == None;
    assert Lookup(withPage, "page") == (if page > 1 then Some(Decimal(page)) else None);
    if aiOnly {
      assert ps[1..] == [("generative_ai", "only")] + withPage;
      assert ps[2..] == withPage;
    } else {
      assert ps[1..] == withPage;
    }
  }
}
