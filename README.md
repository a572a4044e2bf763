# Stock search, modelled in Dafny

A model of `reverse_search.py`, the command-line client that searches the
stock-image tracker at `trackadobestock.com`, with the properties it relies
on proved. It covers every step of one invocation:

- **Command line** (`command_line.dfy`, module `CommandLine`): the
  `while` loop over `sys.argv[1:]` that takes `--page N`, drops `--raw`
  and `--ai-only`, and keeps the other arguments. The first kept argument
  is the query, and `nature` is used when none is left.
- **Request builder** (`search_url.dfy`, module `RequestBuilder`, with
  `form_encoding.dfy` and `text.dfy`): the search URL built by successive
  appends. The parts are `quote_plus` of the query, the AI-only filter,
  the page past the first, and the fixed `_rsc` marker. It is proved that
  a server splitting the URL at `?`, `&` and `=` reads back exactly these
  parameters in this order. It is also proved that `quote_plus` (UTF-8,
  then form percent-encoding) is undone by its inverse.
- **Stream decoder** (`stream_decoder.dfy`, module `StreamDecoder`): the
  first `{"query":"` marker in the streamed body, and the brace-depth scan
  to the `}` that balances it. This is a `method` with its loop. The
  extracted span is proved balanced, with every proper prefix still open.
  The span is found regardless of the framing text around it.
- **Result normaliser** (`normalizer.dfy`, module `Normalizer`, with
  `json.dfy` and `date_format.dfy`):
  - the fourteen image fields, each read with its own default;
  - the keyword list, split at commas, stripped, and limited to twenty
    shown entries while keeping the full count;
  - `format_date`;
  - the usage figures.
- **Search** (`search.dfy`, module `Search`): `search_adobe_stock` as one
  `method`, ending in one of four outcomes: an HTTP error with the first
  1000 characters of the body; a preview of the first 3000 characters
  when no payload is found; the generic error; or the results.

Four things the script uses are parameters of the model: the HTTP
exchange (`fetch`), `json.loads` (`parse`), `datetime.fromisoformat`
(`fromIsoFormat`) and `int()` (`toInt`). `fetch` returns either a
transport failure or a status with the body text. Each of the other
three returns `None` where the library call raises. Python's exceptions inside the
`try` are modelled as the outcome they lead to, not as control flow.

Behaviour of the code that a reader might not expect:

- `--page` accepts any integer, zero and negative ones included. A page
  of 1 or less leaves the page parameter out of the URL. When `--page`
  appears more than once, the last pair wins. A `--page` with no value
  after it is kept as an ordinary argument, and so can become the query.
- Not finding a payload covers more than a missing marker. A marker whose
  braces never balance also leads to the preview. The span always opens
  with `{"query":"`, so a span that `json.loads` accepts is a non-empty
  object and always truthy. The falsy branch of `if data:` is kept in the
  model only because the parser is a parameter there.
- A missing field never aborts processing. But an image that is not an
  object does abort the whole listing, because `img.get` raises. So does
  a truthy `keywords` value that is neither a string nor a list, and so
  does a list with a non-string among its first twenty entries. A falsy
  `keywords` value of any type (`0`, `false`, `null`, `{}`) shows no
  keyword lines.
- A keyword list given as a JSON list is used as it is, without being
  stripped or filtered.
- Missing `creatorId`, `creationDate` and `keywords` default to the empty
  string, not `N/A`.

## Model

| member | source | states |
|---|---|---|
| CommandLine.ScanFrom | reverse_search.py:167-179 | The result of scanning the arguments. Kept arguments are never `--raw` or `--ai-only`, and there are never more of them than arguments. A rejected page is a value that follows some `--page` and that `int()` rejects. |
| CommandLine.ScanArgs | reverse_search.py:167-179 | The `while` loop over the arguments ends in exactly the scan's result; a rejected `int()` stops it. |
| CommandLine.WithoutFlags | reverse_search.py:175-178 | Dropping the two flags never lengthens the argument list. |
| CommandLine.ScanWithoutPage | reverse_search.py:171-179 | Without `--page`, the page stays where it was and every argument except the flags is kept, in order. |
| CommandLine.PageKeptOnlyLast | reverse_search.py:172-174 | A `--page` can be kept only as the last argument: one followed by a value is always consumed. |
| CommandLine.PagePair | reverse_search.py:172-174 | When it is the only `--page` token, a `--page N` pair anywhere sets the page to N and removes both tokens. The arguments around it are kept as if it were absent. |
| CommandLine.PagePairThenRest | reverse_search.py:171-179 | For any arguments after a `--page N` pair: the arguments before the pair are kept without the flags, and the rest is scanned as it would be on its own starting from page N. So each later pair overrides the earlier one. |
| CommandLine.TrailingPageKept | reverse_search.py:171-179 | A `--page` with nothing after it is kept as an ordinary argument after the kept earlier arguments, and the page is left as it was. |
| CommandLine.PagePairRejected | reverse_search.py:172-173 | The first `--page` whose value `int()` rejects makes the scan fail with that value, whatever follows it. |
| CommandLine.IsFlag | reverse_search.py:175 | The dropped flags are exactly `--raw` and `--ai-only`, and neither is `--page`. |
| CommandLine.ParseCommandLine | reverse_search.py:163-181 | The invocation fails exactly when the scan rejects a page. Otherwise the page is the scanned one and the query is the first kept argument (`nature` if none), never a flag. `raw` and `aiOnly` hold exactly when their flag appears anywhere in `sys.argv`. |
| Text.Decimal | reverse_search.py:30 | `str(page)` for a page past 1: a non-empty string of digits, without a leading zero unless it is `0`. |
| Text.DecimalRoundTrip | reverse_search.py:30 | Reading the decimal text back gives the number. |
| Text.Split | reverse_search.py:139 | `split(',')` gives at least one piece, and no piece contains the separator. |
| Text.SplitJoin | reverse_search.py:139 | Splitting undoes joining with the separator when no piece contains it. |
| Text.SplitAfterSeparator | reverse_search.py:139 | Splitting stops at the first separator and continues on the rest. |
| Text.Join | reverse_search.py:140 | `sep.join(parts)` begins with the first part and is at least as long as every part. `SplitJoin` shows that splitting undoes it. |
| Text.TrimStart | reverse_search.py:139 | `strip` removes only whitespace from the front, and all of it. |
| Text.TrimEnd | reverse_search.py:139 | `strip` removes only whitespace from the back, and all of it. |
| Text.Strip | reverse_search.py:139 | `k.strip()` has no whitespace at either end, is no longer than `k`, and leaves an already stripped string unchanged. |
| Text.StripAfterSpace | reverse_search.py:139-140 | The space that `', '.join` puts before a keyword is all that `strip` removes from it. |
| FormEncoding.Utf8Encode | reverse_search.py:24 | `s.encode('utf-8')` takes one to four bytes per character. `Utf8RoundTrip` shows that it loses nothing. |
| FormEncoding.Utf8RoundTrip | reverse_search.py:24 | The UTF-8 bytes `quote_plus` encodes decode back to the query. |
| FormEncoding.OverlongRejected | reverse_search.py:24 | The decoder used to invert the encoding is Python's strict UTF-8: it rejects an overlong form such as `C0 80`. |
| FormEncoding.DecodeFirstUtf8 | reverse_search.py:24 | The first character's bytes decode to that character, whatever follows them. |
| FormEncoding.EncodeByte | reverse_search.py:24 | One byte, as `quote_plus` writes it, is made only of form characters. `UnquoteEncodedByte` shows that it decodes back to the byte. |
| FormEncoding.QuoteBytes | reverse_search.py:24 | The percent-encoded bytes are made only of form characters. `UnquoteQuoteBytes` shows that they decode back. |
| FormEncoding.UnquoteEncodedByte | reverse_search.py:24 | An encoded byte decodes to that byte, whatever follows it. |
| FormEncoding.QuotePlus | reverse_search.py:24 | `quote_plus(query)` is made only of letters, digits, `_.-~`, `+` and `%`, so it never contains `&`, `=`, `?` or `#`. |
| FormEncoding.UnquoteQuoteBytes | reverse_search.py:24 | Percent-decoding the percent-encoded bytes gives the bytes back. |
| FormEncoding.QuotePlusRoundTrip | reverse_search.py:24 | `unquote_plus(quote_plus(q)) == q` for every query. |
| FormEncoding.QuotePlusInjective | reverse_search.py:24 | Different queries give different URLs. |
| RequestBuilder.SearchUrl | reverse_search.py:24-31 | The URL starts with the base URL followed by `?`. `SearchUrlParameters` and `SearchUrlReadBack` show which parameters a server reads from it. |
| RequestBuilder.BuildSearchUrl | reverse_search.py:24-31 | The URL built by successive appends splits into the base path and exactly the intended parameters, in order. |
| RequestBuilder.KeyValueAt | reverse_search.py:26-31 | `key=value` with `=`-free key reads back as that key and value. |
| RequestBuilder.ReadAppended | reverse_search.py:26-31 | `k=v&k1=v1&...` splits at `&` and at each first `=` back into its parameters, when none holds a separator. |
| RequestBuilder.AppendedAfterQuery | reverse_search.py:27-31 | After the query, the URL carries the filter if asked for, the page if past 1, and the marker, each as `&key=value`. |
| RequestBuilder.ParametersSeparable | reverse_search.py:24-31 | No key holds `&` or `=` and no value holds `&`, because the encoded query holds only form characters and the page only digits. |
| RequestBuilder.PathParameters | reverse_search.py:26-31 | Any path without `?`, followed by the script's query string, reads back as that path and the intended parameters. |
| RequestBuilder.SearchUrlParameters | reverse_search.py:24-31 | The search URL reads back as the base URL and the intended parameters. |
| RequestBuilder.SearchUrlReadBack | reverse_search.py:24-31 | The server reads the query back exactly, and the filter exactly when asked for. It reads the page exactly when past 1, as the same number. The `_rsc` marker always comes last. |
| StreamDecoder.Find | reverse_search.py:68-69 | `content.find(marker)` is -1 exactly when the marker occurs nowhere, and otherwise the first position where it occurs. |
| StreamDecoder.Depth | reverse_search.py:74-79 | The depth after a stretch of text is bounded by its length in both directions. `DepthStep` and `DepthCountsBraces` characterise it. |
| StreamDecoder.DepthStep | reverse_search.py:76-79 | Each `{` adds one to the depth, each `}` takes one away, and other characters leave it unchanged. |
| StreamDecoder.DepthCountsBraces | reverse_search.py:74-79 | The depth after a stretch of text is its number of `{` minus its number of `}`. |
| StreamDecoder.FirstClose | reverse_search.py:75-80 | The first index where the depth counted from the marker returns to zero on a `}`, or -1 when there is none. |
| StreamDecoder.FindClosingBrace | reverse_search.py:74-83 | The `for` loop stops at exactly that first index, or runs off the end. |
| StreamDecoder.ExtractSpan | reverse_search.py:68-81 | The span handed to `json.loads` ends in `}` and is balanced. It exists only when the marker occurs. |
| StreamDecoder.ParsedSpanIsPayload | reverse_search.py:68-85 | An object holding the `query` key, which is what `json.loads` makes of a span opening with the marker, always passes `if data:`. |
| StreamDecoder.Interpret | reverse_search.py:82-85 | A payload is a parsed, truthy value. A falsy one means no payload, and a parse failure is a decode failure. |
| StreamDecoder.Decode | reverse_search.py:68-85 | Decoding yields no payload when no span is found, and otherwise the interpretation of parsing the span. |
| StreamDecoder.DepthPositiveBeforeClose | reverse_search.py:74-80 | Before the scan stops, the depth from the marker stays at least 1. |
| StreamDecoder.SpanBounds | reverse_search.py:69-81 | The span runs from the first marker to the first balancing `}`. |
| StreamDecoder.SpanStartsAtMarker | reverse_search.py:69-81 | The span is cut from the body at the first marker and reaches past the marker's end. |
| StreamDecoder.SpanShape | reverse_search.py:74-81 | A scan that starts on the marker stops past it on a balanced span whose proper prefixes are all open. |
| StreamDecoder.SpanIsFirstBalancedPrefix | reverse_search.py:74-83 | Every proper prefix of the span is still open: the depth reaches zero once, at the outer `}`. |
| StreamDecoder.NoMarkerNoPayload | reverse_search.py:69-72 | Without the marker there is no payload. |
| StreamDecoder.UnbalancedNoPayload | reverse_search.py:72-83 | A body whose braces never balance after the marker has no payload. |
| StreamDecoder.FirstMarkerAfterFraming | reverse_search.py:68-69 | The first marker of framing + object + trailer is the one opening the object, when the framing starts none. |
| StreamDecoder.ScanStopsAtObjectEnd | reverse_search.py:74-83 | The scan from a balanced object's start stops at its last character, whatever follows. |
| StreamDecoder.ExtractIgnoresFraming | reverse_search.py:67-83 | The span extracted from framing + object + trailer is exactly the object. |
| DateFormat.Render | reverse_search.py:14 | `strftime('%d %b %Y')` has spaces at positions 2 and 6 and at least eight characters. `RenderRoundTrip` shows that the date can be read back from it. |
| DateFormat.TwoDigits | reverse_search.py:14 | `%d` is two digits whose value is the day. |
| DateFormat.RenderRoundTrip | reverse_search.py:14 | `strftime('%d %b %Y')` loses nothing: reading the text back gives the same day, month and year. |
| DateFormat.RenderExample | reverse_search.py:14 | 5 January 2024 is shown as `05 Jan 2024`. |
| DateFormat.ReplaceZ | reverse_search.py:13 | `replace('Z', '+00:00')` leaves no `Z`, and a string without `Z` is unchanged. |
| DateFormat.ReplaceTrailingZ | reverse_search.py:13 | A trailing `Z` becomes `+00:00` when nothing before it is a `Z`. |
| DateFormat.FormatDate | reverse_search.py:8-16 | A falsy value is shown as `N/A`. A truthy non-string is returned unchanged, because `.replace` raises. A string that does not parse is returned unchanged. One that parses is shown as its `strftime('%d %b %Y')` rendering, which reads back as the parsed date. |
| DateFormat.ReplaceZConcat | reverse_search.py:13 | `replace('Z', '+00:00')` works piece by piece: replacing in two joined strings is joining the two replaced strings. |
| DateFormat.FormatDateUtc | reverse_search.py:8-16 | A timestamp ending in `Z` is read as the same instant with `+00:00`, and shown as its calendar date. |
| Normalizer.Key | reverse_search.py:102-144 | Each field's JSON key is non-empty. `KeyInjective` shows that no two fields share one. |
| Json.Truthy | reverse_search.py:10 | The values `if value:` rejects are exactly `None`, `False`, `0`, `""`, `[]` and `{}`. The same test is used at lines 85, 91, 104, 133 and 138. |
| Json.Get | reverse_search.py:86-88 | `dict.get(key, default)` gives the value stored under the key, or the default when the key is absent. Lines 102-144 read the image fields the same way. |
| Normalizer.Default | reverse_search.py:102-144 | Only `isAI` defaults to a boolean. Every default is either `N/A` or falsy, and the falsy ones are exactly those of `isAI`, `creatorId`, `creationDate` and `keywords`. So a missing upload date or keyword list prints no line. |
| Normalizer.ReadImage | reverse_search.py:102-144 | Each of the fourteen fields is the image's value under its key, or that field's own default when the key is absent. |
| Normalizer.KeyInjective | reverse_search.py:102-144 | No two fields are read from the same key. |
| Normalizer.RecordsEqual | reverse_search.py:102-144 | A record is determined by its fourteen fields. |
| Normalizer.UnknownKeysIgnored | reverse_search.py:102-144 | Keys the script does not read make no difference to the record. |
| Normalizer.FieldsIndependent | reverse_search.py:102-144 | Changing one key's value changes that field alone. |
| Normalizer.CleanPieces | reverse_search.py:139 | Stripping the pieces and dropping empty ones leaves only non-empty, stripped keywords, and never more of them than pieces. |
| Normalizer.CleanPiecesAvoid | reverse_search.py:139 | Stripping and filtering add no character to the keywords. |
| Normalizer.SplitKeywords | reverse_search.py:139 | The keywords of a comma-separated string are non-empty, stripped and free of commas. |
| Normalizer.StripKeepsOut | reverse_search.py:139 | `strip` adds no character. |
| Normalizer.JoinSpaced | reverse_search.py:140 | Joining with `,` keywords that each carry a leading space is the same as joining with `, `. |
| Normalizer.CleanSpaced | reverse_search.py:139 | Stripping keywords preceded by a space gives the keywords back. |
| Normalizer.JoinPieces | reverse_search.py:139-140 | Joining the pieces of the `, `-joined text at `,` gives the `, `-joined text back. |
| Normalizer.CleanPiecesOf | reverse_search.py:139 | Cleaning the pieces of a keyword list gives that list back. |
| Normalizer.CleanPiecesAppend | reverse_search.py:139 | Cleaning works piece by piece: the keywords of two runs of pieces are those of each, in order. |
| Normalizer.SplitKeywordsPiece | reverse_search.py:139 | The keywords of `a,b` (with `a` free of commas) are `a.strip()` if it is non-empty, followed by the keywords of `b`. So the keywords are exactly the stripped comma-separated pieces, in order, with only the empty ones dropped. |
| Normalizer.SplitKeywordsSingle | reverse_search.py:139 | A comma-free string is one keyword, stripped, or none if it is blank. |
| Normalizer.SplitKeywordsJoin | reverse_search.py:139-140 | Splitting the `', '.join` of non-empty, stripped, comma-free keywords gives exactly those keywords. |
| Normalizer.SplitKeywordsIdempotent | reverse_search.py:139-140 | Splitting the displayed keywords again gives the same list. |
| Normalizer.KeywordList | reverse_search.py:139 | `kw_list` is a list used as it is, or a string's keywords, one string value each. Any other value has no `kw_list`. |
| Normalizer.Strings | reverse_search.py:140 | `', '.join` succeeds exactly when every entry is a string, and then gives those strings in order. |
| Normalizer.StringsOfStrs | reverse_search.py:140 | A list made only of strings is joined without raising. |
| Normalizer.SummarizeKeywords | reverse_search.py:137-141 | Falsy keywords show no lines. Truthy ones are listed exactly when `kw_list` exists and its first twenty entries are strings. The count is the whole list's length, and the shown entries are its first `min(20, count)`. |
| Normalizer.StringKeywordsListed | reverse_search.py:137-141 | A non-empty keyword string is always listed: the first twenty of its keywords, with their total count. |
| Normalizer.NormalizeImage | reverse_search.py:100-141 | An image is shown exactly when it is an object whose keywords can be listed. Then: its record is read with the defaults; the AI tag appears iff `isAI` is truthy; an upload date appears iff `creationDate` is truthy, formatted by `format_date`; the keywords are summarised. |
| Normalizer.AllSome | reverse_search.py:100 | Mapping that may fail succeeds exactly when every item succeeds, and keeps the order. |
| Normalizer.NormalizeImages | reverse_search.py:100 | Every image is shown in order, none dropped. The listing fails exactly when one image fails. |
| Normalizer.Length | reverse_search.py:88 | `len` exists exactly for lists, strings and objects. |
| Normalizer.ImageItems | reverse_search.py:86-100 | A list gives its items. An empty string or object gives none. A number, null or boolean makes `len` raise, and a non-empty string or object makes `img.get` raise. The item count equals `len(images)`. |
| Normalizer.ReadUsage | reverse_search.py:87-88 | Plan, searches used and limit each default on their own (`N/A`, `?`, `?`). Reading fails when `usageData` is not an object. |
| Normalizer.Normalize | reverse_search.py:85-146 | A payload that is not an object fails. An object succeeds exactly when its usage and all its images can be read. The header count equals the number of entries shown, the entries are the normalised images in order, and the usage is the one read. |
| Normalizer.NormalizeDefaults | reverse_search.py:86-88 | A payload without `images` and `usageData` lists nothing, with the default usage figures. |
| Normalizer.ListingFollowsImages | reverse_search.py:100-102 | Image i of a listed payload appears as entry i, with its fields read from it. |
| Normalizer.RawDoesNotChangeListing | reverse_search.py:91-100 | `--raw` never changes the listing or whether it fails. |
| Search.Prefix | reverse_search.py:152-156 | `s[:n]` is the first `min(n, len(s))` characters of `s`. |
| Search.IsSuccess | reverse_search.py:63 | `raise_for_status` passes exactly the 2xx statuses. |
| Search.SearchAdobeStock | reverse_search.py:18-160 | A transport failure gives the generic error. A non-2xx status gives the status and the first 1000 characters. Otherwise the decoded payload decides: no payload gives the first 3000 characters (always so without the marker); a parse or normalisation failure gives the generic error; success gives the listing, whose count matches its entries. |

## Left out

- The HTTP/2 client, its 30-second timeout, the cookies and the browser headers are constants of the transport. The exchange is the `fetch` parameter.
- `json.loads`, `datetime.fromisoformat` and `int()` are parameters, not reimplemented.
- JSON numbers are integers only. Floating-point values are not modelled.
- Everything printed: the header line, the per-image blocks, the creator and stock-URL strings, the `--raw` JSON dump and the error-message texts. The model returns the values those lines show, not the text.
- The records printed before an image that raises are not part of the `None` result.
- `%Y` for years below 1000 is shown unpadded, as glibc does. Locales other than C are not modelled.
- The wiring at line 182, `search_adobe_stock(query, page=page, ai_only=ai_only, raw=raw)`, is not one member. It is the composition of `CommandLine.ParseCommandLine` and `Search.SearchAdobeStock`.
- `client.close()` in the `finally` block is not modelled, because nothing in the model holds a connection.
- `scripts/` (the prompt-splitting utility) is not part of this model.
- A query is a Dafny string, a sequence of Unicode scalar values. A Python `str` can also hold a lone surrogate, for example from undecodable bytes in `sys.argv`. On such a query `quote_plus` raises `UnicodeEncodeError` at line 24, outside the `try`, and the script stops with a traceback. The model cannot express that input.
- `UnquotePlus` is the strict inverse of `QuotePlus`, not Python's `unquote_plus`. It rejects lower-case hex digits and characters `quote_plus` never writes, both of which Python's function accepts.
