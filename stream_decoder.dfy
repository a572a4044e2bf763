/**
 * Recovering the search payload from the streamed server-component response
 * (reverse_search.py, lines 67-83): find the first `{"query":"`, then scan
 * forward counting `{` and `}` until the count first drops back to zero on a
 * `}`. Braces inside JSON strings are counted like any other: the scan does
 * not track quotes, and neither does this model.
 */
module StreamDecoder {

  import opened Wrappers
  import opened Json

  /** The text that opens the payload object. */
  const Marker: string := "{\"query\":\""

  // ---------------------------------------------------------------------------
  // Locating the marker: `content.find(marker)`
  // ---------------------------------------------------------------------------

  predicate OccursAt(s: string, pat: string, k: int)
  {
    0 <= k && k + |pat| <= |s| && s[k..k + |pat|] == pat
  }

  function FindFrom(s: string, pat: string, i: nat): (r: int)
    requires i <= |s|
    ensures r == -1 || (i <= r && OccursAt(s, pat, r))
    ensures forall k :: i <= k < (if r == -1 then |s| + 1 else r) ==> !OccursAt(s, pat, k)
    decreases |s| - i
  {
    if i + |pat| > |s| then -1
    else if OccursAt(s, pat, i) then i
    else FindFrom(s, pat, i + 1)
  }

  /** `s.find(pat)`: the first position where `pat` occurs, or -1 when it occurs nowhere. */
  function Find(s: string, pat: string): (r: int)
    ensures r == -1 || OccursAt(s, pat, r)
    ensures forall k :: 0 <= k < (if r == -1 then |s| + 1 else r) ==> !OccursAt(s, pat, k)
  {
    FindFrom(s, pat, 0)
  }

  // ---------------------------------------------------------------------------
  // The brace-depth scan
  // ---------------------------------------------------------------------------

  /** How reading one character moves the depth: up on `{`, down on `}`. */
  function Step(c: char): int
  {
    if c == '{' then 1 else if c == '}' then -1 else 0
  }

  /** The brace depth after reading `s` from depth zero, one character at a time. */
  function Depth(s: string): (d: int)
    ensures -|s| <= d <= |s|
    decreases |s|
  {
    if s == [] then 0 else Depth(s[..|s| - 1]) + Step(s[|s| - 1])
  }

  /** Reading one more character moves the depth by one on a brace and leaves it otherwise. */
  lemma DepthStep(s: string, c: char)
    ensures Depth(s + [c]) == Depth(s) + (if c == '{' then 1 else if c == '}' then -1 else 0)
  {
    assert (s + [c])[..|s|] == s;
  }

  /** The depth is the number of `{` read minus the number of `}` read. */
  lemma {:induction false} DepthCountsBraces(s: string)
    ensures Depth(s) == multiset(s)['{'] as int - multiset(s)['}'] as int
    decreases |s|
  {
    if s != [] {
      var init := s[..|s| - 1];
      DepthCountsBraces(init);
      assert s == init + [s[|s| - 1]];
      assert multiset(s) == multiset(init) + multiset{s[|s| - 1]};
    }
  }

  /** Index `i` holds a `}` that brings the depth counted from `start` back to zero: where the scan stops. */
  predicate Closes(content: string, start: nat, i: int)
  {
    start <= i < |content| && content[i] == '}' && Depth(content[start..i + 1]) == 0
  }

  /** The first index at or after `from` where the scan from `start` stops, or -1. */
  function FirstClose(content: string, start: nat, from: nat): (r: int)
    requires start <= from <= |content|
    ensures r == -1 || (from <= r && Closes(content, start, r))
    ensures forall i :: from <= i < (if r == -1 then |content| else r) ==> !Closes(content, start, i)
    decreases |content| - from
  {
    if from == |content| then -1
    else if Closes(content, start, from) then from
    else FirstClose(content, start, from + 1)
  }

  /**
   * The scan loop: from `start`, count `{` up and `}` down, and stop at the
   * first `}` that brings the count to zero. Returns its index, or -1 when the
   * end of the content comes first.
   */
  method FindClosingBrace(content: string, start: nat) returns (close: int)
    requires start <= |content|
    ensures close == FirstClose(content, start, start)
    ensures close == -1 || Closes(content, start, close)
  {
    var depth := 0;
    for i := start to |content|
      invariant depth == Depth(content[start..i])
      invariant forall j :: start <= j < i ==> !Closes(content, start, j)
    {
      DepthStep(content[start..i], content[i]);
      assert content[start..i + 1] == content[start..i] + [content[i]];
      if content[i] == '{' {
        depth := depth + 1;
      } else if content[i] == '}' {
        depth := depth - 1;
        if depth == 0 {
          assert Closes(content, start, i);
          return i;
        }
      }
    }
    return -1;
  }

  /** The payload text: from the first marker to the `}` that balances it, or nothing. */
  function ExtractSpan(content: string): (r: Option<string>)
    ensures r.Some? ==> |r.value| > 0 && r.value[|r.value| - 1] == '}' && Depth(r.value) == 0
    ensures Find(content, Marker) == -1 ==> r == None
  {
    var start := Find(content, Marker);
    if start < 0 then None
    else
      var close := FirstClose(content, start, start);
      if close < 0 then None else Some(content[start..close + 1])
  }

  /** An object holding the `query` key, as any successful parse of the span is, is always a payload. */
  lemma ParsedSpanIsPayload(fields: map<string, Value>)
    requires "query" in fields
    ensures Interpret(Some(Object(fields))) == Payload(Object(fields))
  {
    assert fields != map[];
  }

  /** What the decoding step leaves the script with. */
  datatype Decoded =
    | NoPayload            // no span, or `data` falsy: the script shows a preview instead
    | DecodeFailed         // `json.loads` raised on the extracted text
    | Payload(data: Value) // a non-empty decoded object (or other truthy value)

  /**
   * Interprets the result of `json.loads` the way `if data:` does. The span
   * always opens with `{"query":"`, so the real `json.loads` can only return
   * a non-empty object here (`ParsedSpanIsPayload`); the falsy case is kept
   * because `parse` stands for any parser.
   */
  function Interpret(parsed: Option<Value>): (d: Decoded)
    ensures d.Payload? ==> parsed == Some(d.data) && Truthy(d.data)
    ensures d.NoPayload? <==> parsed.Some? && !Truthy(parsed.value)
    ensures d.DecodeFailed? <==> parsed.None?
  {
    match parsed
    case None => DecodeFailed
    case Some(v) => if Truthy(v) then Payload(v) else NoPayload
  }

  /**
   * Lines 68-85 of the script: locate the marker, scan for the balancing
   * brace, and hand the span to `json.loads` (the `parse` parameter).
   */
  method Decode(content: string, parse: string -> Option<Value>) returns (d: Decoded)
    ensures ExtractSpan(content).None? ==> d == NoPayload
    ensures ExtractSpan(content).Some? ==> d == Interpret(parse(ExtractSpan(content).value))
  {
    d := NoPayload;
    var start := Find(content, Marker);
    if start != -1 {
      var close := FindClosingBrace(content, start);
      if close != -1 {
        var jsonText := content[start..close + 1];
        d := Interpret(parse(jsonText));
      }
    }
  }

  // ---------------------------------------------------------------------------
  // Properties of the scan
  // ---------------------------------------------------------------------------

  /**
   * When the scan starts on a `{` (as it does at the marker), the depth stays
   * at one or more until the stopping index: that index is the first place
   * where the counts of `{` and `}` read so far are equal.
   */
  lemma {:induction false} DepthPositiveBeforeClose(content: string, start: nat, j: nat)
    requires start <= j < |content| && content[start] == '{'
    requires forall i :: start <= i <= j ==> !Closes(content, start, i)
    ensures Depth(content[start..j + 1]) >= 1
    decreases j - start
  {
    if j == start {
      assert content[start..j + 1] == ['{'];
    } else {
      DepthPositiveBeforeClose(content, start, j - 1);
      DepthStep(content[start..j], content[j]);
      assert content[start..j + 1] == content[start..j] + [content[j]];
      assert !Closes(content, start, j);
    }
  }

  /** Where the extracted span lies: from the first marker to the first balancing `}`. */
  lemma SpanBounds(content: string) returns (start: nat, close: nat)
    requires ExtractSpan(content).Some?
    ensures start == Find(content, Marker) && OccursAt(content, Marker, start)
    ensures close == FirstClose(content, start, start)
    ensures ExtractSpan(content).value == content[start..close + 1]
  {
    start := Find(content, Marker);
    close := FirstClose(content, start, start);
  }

  /** The extracted span is cut from the content at the first marker, and extends past the marker's end. */
  lemma SpanStartsAtMarker(content: string)
    requires ExtractSpan(content).Some?
    ensures OccursAt(content, Marker, Find(content, Marker))
    ensures Find(content, Marker) + |ExtractSpan(content).value| <= |content|
    ensures ExtractSpan(content).value
      == content[Find(content, Marker)..Find(content, Marker) + |ExtractSpan(content).value|]
    ensures |ExtractSpan(content).value| >= |Marker|
  {
    var start, close := SpanBounds(content);
    SpanShape(content, start, close);
    SliceByLength(content, start, close + 1, ExtractSpan(content).value);
  }

  lemma SliceByLength(s: string, a: nat, b: nat, x: string)
    requires a <= b <= |s| && x == s[a..b]
    ensures a + |x| == b && x == s[a..a + |x|]
  {
  }

  /** The extracted span ends at the first point where its braces balance: every shorter prefix is still open. */
  lemma SpanIsFirstBalancedPrefix(content: string)
    requires ExtractSpan(content).Some?
    ensures var span := ExtractSpan(content).value;
      forall n :: 0 < n < |span| ==> Depth(span[..n]) >= 1
  {
    var start, close := SpanBounds(content);
    SpanShape(content, start, close);
    PrefixDepths(content, start, close, content[start..close + 1]);
  }

  /** The depths of a span's prefixes are those of the same stretches of the content it was cut from. */
  lemma PrefixDepths(content: string, start: nat, close: nat, span: string)
    requires start <= close < |content| && span == content[start..close + 1]
    requires forall j :: start < j <= close ==> Depth(content[start..j]) >= 1
    ensures forall n :: 0 < n < |span| ==> Depth(span[..n]) >= 1
  {
    forall n | 0 < n < |span| ensures Depth(span[..n]) >= 1 {
      assert span[..n] == content[start..start + n];
    }
  }

  /** The marker opens one object and closes none. */
  lemma MarkerOpensOnce()
    ensures Marker[0] == '{' && '}' !in Marker
  {
  }

  /** A scan that starts on the marker stops past its end, on a balanced span all of whose proper prefixes are unbalanced. */
  lemma SpanShape(content: string, start: nat, close: int)
    requires OccursAt(content, Marker, start)
    requires close == FirstClose(content, start, start) && close != -1
    ensures close + 1 - start >= |Marker|
    ensures Depth(content[start..close + 1]) == 0
    ensures forall j :: start < j <= close ==> Depth(content[start..j]) >= 1
  {
    MarkerOpensOnce();
    assert Closes(content, start, close);
    assert content[start] == '{' by {
      assert content[start..start + |Marker|][0] == content[start];
    }
    PrefixesBeforeClose(content, start, close);
  }

  /** Every proper prefix of the scanned span, which opens with `{`, is still unbalanced. */
  lemma PrefixesBeforeClose(content: string, start: nat, close: nat)
    requires start <= close < |content| && content[start] == '{'
    requires forall i :: start <= i < close ==> !Closes(content, start, i)
    ensures forall j :: start < j <= close ==> Depth(content[start..j]) >= 1
  {
    forall j | start < j <= close ensures Depth(content[start..j]) >= 1 {
      DepthPositiveBeforeClose(content, start, j - 1);
    }
  }

  /** Without the marker there is no payload, whatever else the body holds. */
  lemma NoMarkerNoPayload(content: string)
    requires forall k :: 0 <= k <= |content| ==> !OccursAt(content, Marker, k)
    ensures ExtractSpan(content) == None
  {
  }

  /** A body whose braces never balance after the marker yields no payload either. */
  lemma UnbalancedNoPayload(content: string, start: nat)
    requires start == Find(content, Marker)
    requires forall i :: start < i <= |content| ==> Depth(content[start..i]) != 0
    ensures ExtractSpan(content) == None
  {
  }

  /** The first marker of `pre + obj + post` is the one opening `obj` when `pre` does not already start one. */
  lemma FirstMarkerAfterFraming(pre: string, obj: string, post: string)
    requires OccursAt(obj, Marker, 0)
    requires forall k :: 0 <= k < |pre| ==> !OccursAt(pre + obj, Marker, k)
    ensures Find(pre + obj + post, Marker) == |pre|
  {
    var content := pre + obj + post;
    var start := |pre|;
    assert content[start..start + |Marker|] == obj[..|Marker|];
    assert OccursAt(content, Marker, start);
    assert content[..|pre| + |obj|] == pre + obj;
    forall k | 0 <= k < start ensures !OccursAt(content, Marker, k) {
      assert !OccursAt(pre + obj, Marker, k);
      assert k + |Marker| <= |pre| + |obj|;
      assert content[k..k + |Marker|] == (pre + obj)[k..k + |Marker|];
    }
  }

  /** Scanning from the start of a balanced object stops at its last character, whatever follows it. */
  lemma ScanStopsAtObjectEnd(pre: string, obj: string, post: string)
    requires |obj| > 0 && Depth(obj) == 0 && obj[|obj| - 1] == '}'
    requires forall n :: 0 < n < |obj| ==> Depth(obj[..n]) != 0
    ensures FirstClose(pre + obj + post, |pre|, |pre|) == |pre| + |obj| - 1
  {
    var content := pre + obj + post;
    var start := |pre|;
    var last := start + |obj| - 1;
    assert content[start..last + 1] == obj;
    assert Closes(content, start, last);
    forall i | start <= i < last ensures !Closes(content, start, i) {
      assert content[start..i + 1] == obj[..i + 1 - start];
    }
  }

  /**
   * A balanced object that opens with the marker is found and cut out
   * exactly, whatever framing text surrounds it, as long as the text before
   * it does not already contain the marker.
   */
  lemma ExtractIgnoresFraming(pre: string, obj: string, post: string)
    requires OccursAt(obj, Marker, 0)
    requires |obj| > 0 && Depth(obj) == 0 && obj[|obj| - 1] == '}'
    requires forall n :: 0 < n < |obj| ==> Depth(obj[..n]) != 0
    requires forall k :: 0 <= k < |pre| ==> !OccursAt(pre + obj, Marker, k)
    ensures ExtractSpan(pre + obj + post) == Some(obj)
  {
    FirstMarkerAfterFraming(pre, obj, post);
    ScanStopsAtObjectEnd(pre, obj, post);
    assert (pre + obj + post)[|pre|..|pre| + |obj|] == obj;
  }
}
