/**
 * What the search script reads out of the decoded payload
 * (reverse_search.py, lines 86-144): the `images` list and the `usageData`
 * object, each with its default, and for every image fourteen fields, each
 * with its own default, plus the keyword list normalised from a
 * comma-separated string. Everything the script would raise on inside its
 * `try` (a `.get` on something that is not a dict, `len` of a number, a
 * keyword that `join` cannot take) is a `None` here: the script then stops
 * with its generic error message.
 */
module Normalizer {

  import opened Wrappers
  import opened Text
  import opened Json
  import opened DateFormat

  // ---------------------------------------------------------------------------
  // Image fields and their defaults
  // ---------------------------------------------------------------------------

  /** The fields the script reads from each image. */
  datatype Field =
    | Title | IsAI | Id | Downloads | Premium | Creator | CreatorId | MediaType
    | Category | ContentType | Dimensions | CreationDate | KeywordsField | ThumbnailUrl

  /** The JSON key of each field. */
  function Key(f: Field): (k: string)
    ensures k != ""
  {
    match f
    case Title => "title"
    case IsAI => "isAI"
    case Id => "id"
    case Downloads => "downloads"
    case Premium => "premium"
    case Creator => "creator"
    case CreatorId => "creatorId"
    case MediaType => "mediaType"
    case Category => "category"
    case ContentType => "contentType"
    case Dimensions => "dimensions"
    case CreationDate => "creationDate"
    case KeywordsField => "keywords"
    case ThumbnailUrl => "thumbnailUrl"
  }

  /** What the script shows when an image lacks the field: `False` for the AI flag, `''` for three fields, `'N/A'` otherwise. */
  function Default(f: Field): (v: Value)
    ensures v.Bool? <==> f == IsAI
    ensures v == Str("N/A") || !Truthy(v)
    ensures !Truthy(v) <==> f in {IsAI, CreatorId, CreationDate, KeywordsField}
  {
    match f
    case IsAI => Bool(false)
    case CreatorId => Str("")
    case CreationDate => Str("")
    case KeywordsField => Str("")
    case _ => Str("N/A")
  }

  /** The fields of one image after the `.get(key, default)` reads. */
  datatype ImageRecord = ImageRecord(
    title: Value, isAI: Value, id: Value, downloads: Value, premium: Value,
    creator: Value, creatorId: Value, mediaType: Value, category: Value,
    contentType: Value, dimensions: Value, creationDate: Value,
    keywords: Value, thumbnailUrl: Value)

  function FieldOf(r: ImageRecord, f: Field): Value
  {
    match f
    case Title => r.title
    case IsAI => r.isAI
    case Id => r.id
    case Downloads => r.downloads
    case Premium => r.premium
    case Creator => r.creator
    case CreatorId => r.creatorId
    case MediaType => r.mediaType
    case Category => r.category
    case ContentType => r.contentType
    case Dimensions => r.dimensions
    case CreationDate => r.creationDate
    case KeywordsField => r.keywords
    case ThumbnailUrl => r.thumbnailUrl
  }

  /** Lines 102-144: every field is the image's value under its key, or that field's default when the key is absent. */
  function ReadImage(fields: map<string, Value>): (r: ImageRecord)
    ensures forall f :: FieldOf(r, f) == (if Key(f) in fields then fields[Key(f)] else Default(f))
  {
    ImageRecord(
      Get(fields, "title", Str("N/A")),
      Get(fields, "isAI", Bool(false)),
      Get(fields, "id", Str("N/A")),
      Get(fields, "downloads", Str("N/A")),
      Get(fields, "premium", Str("N/A")),
      Get(fields, "creator", Str("N/A")),
      Get(fields, "creatorId", Str("")),
      Get(fields, "mediaType", Str("N/A")),
      Get(fields, "category", Str("N/A")),
      Get(fields, "contentType", Str("N/A")),
      Get(fields, "dimensions", Str("N/A")),
      Get(fields, "creationDate", Str("")),
      Get(fields, "keywords", Str("")),
      Get(fields, "thumbnailUrl", Str("N/A")))
  }

  /** No two fields are read from the same key. */
  lemma KeyInjective(f: Field, g: Field)
    requires Key(f) == Key(g)
    ensures f == g
  {
  }

  /** Different fields are read from different keys. */
  lemma KeysDiffer(f: Field, g: Field)
    requires f != g
    ensures Key(f) != Key(g)
  {
    if Key(f) == Key(g) {
      KeyInjective(f, g);
    }
  }

  /** Two records agreeing on every field are the same record. */
  lemma RecordsEqual(r: ImageRecord, s: ImageRecord)
    requires forall f :: FieldOf(r, f) == FieldOf(s, f)
    ensures r == s
  {
    assert FieldOf(r, Title) == FieldOf(s, Title);
    assert FieldOf(r, IsAI) == FieldOf(s, IsAI);
    assert FieldOf(r, Id) == FieldOf(s, Id);
    assert FieldOf(r, Downloads) == FieldOf(s, Downloads);
    assert FieldOf(r, Premium) == FieldOf(s, Premium);
    assert FieldOf(r, Creator) == FieldOf(s, Creator);
    assert FieldOf(r, CreatorId) == FieldOf(s, CreatorId);
    assert FieldOf(r, MediaType) == FieldOf(s, MediaType);
    assert FieldOf(r, Category) == FieldOf(s, Category);
    assert FieldOf(r, ContentType) == FieldOf(s, ContentType);
    assert FieldOf(r, Dimensions) == FieldOf(s, Dimensions);
    assert FieldOf(r, CreationDate) == FieldOf(s, CreationDate);
    assert FieldOf(r, KeywordsField) == FieldOf(s, KeywordsField);
    assert FieldOf(r, ThumbnailUrl) == FieldOf(s, ThumbnailUrl);
  }

  /** Keys the script does not read make no difference to the record. */
  lemma UnknownKeysIgnored(fields: map<string, Value>, k: string, v: Value)
    requires forall f :: Key(f) != k
    ensures ReadImage(fields[k := v]) == ReadImage(fields)
  {
    var r, s := ReadImage(fields[k := v]), ReadImage(fields);
    forall f ensures FieldOf(r, f) == FieldOf(s, f) {
      assert Key(f) != k;
    }
    RecordsEqual(r, s);
  }

  /** Each field defaults on its own: setting one key changes that field alone. */
  lemma FieldsIndependent(fields: map<string, Value>, f: Field, v: Value)
    ensures FieldOf(ReadImage(fields[Key(f) := v]), f) == v
    ensures forall g :: g != f ==> FieldOf(ReadImage(fields[Key(f) := v]), g) == FieldOf(ReadImage(fields), g)
  {
    var updated, original := ReadImage(fields[Key(f) := v]), ReadImage(fields);
    assert FieldOf(updated, f) == v;
    forall g | g != f
      ensures FieldOf(updated, g) == FieldOf(original, g)
    {
      KeysDiffer(g, f);
    }
  }

  // ---------------------------------------------------------------------------
  // Keywords
  // ---------------------------------------------------------------------------

  /** `[k.strip() for k in pieces if k.strip()]`. */
  function CleanPieces(pieces: seq<string>): (r: seq<string>)
    ensures |r| <= |pieces|
    ensures forall i :: 0 <= i < |r| ==> r[i] != "" && IsStripped(r[i])
  {
    if pieces == [] then []
    else
      var k := Strip(pieces[0]);
      if k != "" then [k] + CleanPieces(pieces[1..]) else CleanPieces(pieces[1..])
  }

  /** Trimming and dropping pieces never brings in a character that no piece had. */
  lemma {:induction false} CleanPiecesAvoid(pieces: seq<string>, c: char)
    requires forall i :: 0 <= i < |pieces| ==> c !in pieces[i]
    ensures forall j :: 0 <= j < |CleanPieces(pieces)| ==> c !in CleanPieces(pieces)[j]
    decreases |pieces|
  {
    if pieces != [] {
      StripKeepsOut(pieces[0], c);
      CleanPiecesAvoid(pieces[1..], c);
    }
  }

  /** Line 139 for a string: split on commas, trim every piece, drop the empty ones. */
  function SplitKeywords(s: string): (r: seq<string>)
    ensures forall i :: 0 <= i < |r| ==> r[i] != "" && IsStripped(r[i]) && ',' !in r[i]
  {
    var pieces := Split(s, ',');
    CleanPiecesAvoid(pieces, ',');
    CleanPieces(pieces)
  }

  /** `strip` only removes characters, so a character absent before is absent after. */
  lemma StripKeepsOut(s: string, c: char)
    requires c !in s
    ensures c !in Strip(s)
  {
    var t := TrimStart(s);
    assert forall x :: x in t ==> x in s;
    var r := TrimEnd(t);
    assert forall x :: x in r ==> x in t;
  }

  /** Every keyword with a space in front of it: the pieces `split(',')` makes of `', '.join(ks)` after the first. */
  function Spaced(ks: seq<string>): (r: seq<string>)
    ensures |r| == |ks|
  {
    seq(|ks|, i requires 0 <= i < |ks| => " " + ks[i])
  }

  lemma {:induction false} JoinSpaced(ks: seq<string>)
    requires |ks| >= 1
    ensures Join(Spaced(ks), ",") == " " + Join(ks, ", ")
    decreases |ks|
  {
    if |ks| > 1 {
      JoinSpaced(ks[1..]);
      assert Spaced(ks)[1..] == Spaced(ks[1..]);
    }
  }

  lemma {:induction false} CleanSpaced(ks: seq<string>)
    requires forall i :: 0 <= i < |ks| ==> ks[i] != "" && IsStripped(ks[i])
    ensures CleanPieces(Spaced(ks)) == ks
    decreases |ks|
  {
    if ks != [] {
      var spaced := Spaced(ks);
      assert spaced[0] == " " + ks[0];
      StripAfterSpace(ks[0]);
      assert spaced[1..] == Spaced(ks[1..]);
      CleanSpaced(ks[1..]);
      assert CleanPieces(spaced) == [ks[0]] + CleanPieces(spaced[1..]);
      assert [ks[0]] + ks[1..] == ks;
    }
  }

  /** The pieces `split(',')` makes of `', '.join(ks)`: the first keyword, then the others with a space in front. */
  function Pieces(ks: seq<string>): (r: seq<string>)
    requires |ks| >= 1
    ensures |r| == |ks| && r[0] == ks[0] && r[1..] == Spaced(ks[1..])
  {
    [ks[0]] + Spaced(ks[1..])
  }

  lemma CommaSpace(a: string, j: string)
    ensures a + "," + (" " + j) == a + ", " + j
  {
  }

  lemma JoinPieces(ks: seq<string>)
    requires |ks| >= 1
    ensures Join(Pieces(ks), ",") == Join(ks, ", ")
  {
    if |ks| > 1 {
      var p := Pieces(ks);
      var rest := Join(ks[1..], ", ");
      JoinSpaced(ks[1..]);
      assert Join(p[1..], ",") == " " + rest;
      assert Join(p, ",") == ks[0] + "," + (" " + rest);
      CommaSpace(ks[0], rest);
    }
  }

  lemma CleanPiecesOf(ks: seq<string>)
    requires |ks| >= 1
    requires forall i :: 0 <= i < |ks| ==> ks[i] != "" && IsStripped(ks[i])
    ensures CleanPieces(Pieces(ks)) == ks
  {
    CleanSpaced(ks[1..]);
    assert [ks[0]] + ks[1..] == ks;
  }

  lemma PiecesAvoid(ks: seq<string>, c: char)
    requires |ks| >= 1 && c != ' '
    requires forall i :: 0 <= i < |ks| ==> c !in ks[i]
    ensures forall i :: 0 <= i < |Pieces(ks)| ==> c !in Pieces(ks)[i]
  {
    forall i | 1 <= i < |ks| ensures c !in Pieces(ks)[i] {
      assert Pieces(ks)[i] == Spaced(ks[1..])[i - 1] == " " + ks[i];
    }
  }

  /**
   * Keywords written out as `', '.join(ks)` are read back exactly, in order,
   * as long as each is non-empty, has no surrounding whitespace and no comma.
   */
  lemma SplitKeywordsJoin(ks: seq<string>)
    requires forall i :: 0 <= i < |ks| ==> ks[i] != "" && IsStripped(ks[i]) && ',' !in ks[i]
    ensures SplitKeywords(Join(ks, ", ")) == ks
  {
    if ks == [] {
      assert Split("", ',') == [""];
    } else {
      JoinPieces(ks);
      PiecesAvoid(ks, ',');
      SplitJoin(Pieces(ks), ',');
      CleanPiecesOf(ks);
    }
  }

  /** Normalising twice changes nothing. */
  lemma SplitKeywordsIdempotent(s: string)
    ensures SplitKeywords(Join(SplitKeywords(s), ", ")) == SplitKeywords(s)
  {
    SplitKeywordsJoin(SplitKeywords(s));
  }

  /** Cleaning works piece by piece: the keywords of two runs of pieces are those of each, in order. */
  lemma {:induction false} CleanPiecesAppend(a: seq<string>, b: seq<string>)
    ensures CleanPieces(a + b) == CleanPieces(a) + CleanPieces(b)
    decreases |a|
  {
    if a == [] {
      assert a + b == b;
    } else {
      assert (a + b)[0] == a[0] && (a + b)[1..] == a[1..] + b;
      CleanPiecesAppend(a[1..], b);
      var k := Strip(a[0]);
      if k != "" {
        assert [k] + (CleanPieces(a[1..]) + CleanPieces(b)) == ([k] + CleanPieces(a[1..])) + CleanPieces(b);
      }
    }
  }

  /**
   * The keywords of a string are read one comma-separated piece at a time:
   * the first piece, stripped, unless nothing is left of it, followed by the
   * keywords of the rest, in order.
   */
  lemma SplitKeywordsPiece(a: string, b: string)
    requires ',' !in a
    ensures SplitKeywords(a + "," + b) == (if Strip(a) == "" then [] else [Strip(a)]) + SplitKeywords(b)
  {
    SplitAfterSeparator(a, ',', b);
    assert a + "," + b == a + [','] + b;
    CleanPiecesAppend([a], Split(b, ','));
    assert [a][1..] == [];
  }

  /** A string without a comma is one keyword when something is left of it after stripping, none otherwise. */
  lemma SplitKeywordsSingle(a: string)
    requires ',' !in a
    ensures SplitKeywords(a) == (if Strip(a) == "" then [] else [Strip(a)])
  {
    assert [a][1..] == [];
  }

  /** How many keywords the script lists after `Keywords:`. */
  const DisplayLimit: nat := 20

  function Min(a: nat, b: nat): nat
  {
    if a < b then a else b
  }

  /** The keyword lines of one image: nothing when `keywords` is falsy, else the first twenty and the full count. */
  datatype KeywordSummary =
    | NoKeywords
    | Listed(shown: seq<string>, count: nat)

  /** `kw_list`: the normalised list for a string, the value itself for a list; `None` where slicing or `len` raises. */
  function KeywordList(v: Value): (r: Option<seq<Value>>)
    ensures v.Array? ==> r == Some(v.items)
    ensures v.Str? ==> (r.Some? && |r.value| == |SplitKeywords(v.s)|
      && forall i :: 0 <= i < |r.value| ==> r.value[i] == Str(SplitKeywords(v.s)[i]))
    ensures !v.Array? && !v.Str? ==> r == None
  {
    match v
    case Str(s) => var ks := SplitKeywords(s); Some(seq(|ks|, i requires 0 <= i < |ks| => Str(ks[i])))
    case Array(items) => Some(items)
    case _ => None
  }

  /** The strings of the first `n` items, or `None` when one of them is not a string (`join` raises). */
  function Strings(items: seq<Value>): (r: Option<seq<string>>)
    ensures r.Some? <==> forall i :: 0 <= i < |items| ==> items[i].Str?
    ensures r.Some? ==> |r.value| == |items| && forall i :: 0 <= i < |items| ==> items[i] == Str(r.value[i])
  {
    if items == [] then Some([])
    else if !items[0].Str? then None
    else
      match Strings(items[1..])
      case None => None
      case Some(rest) => Some([items[0].s] + rest)
  }

  /**
   * Lines 137-141. A truthy `keywords` is listed: the first twenty entries
   * are shown and the count is the length of the whole list. Only the shown
   * entries have to be strings; a value that is neither string nor list, or a
   * shown entry that is not a string, makes the script raise.
   */
  function SummarizeKeywords(v: Value): (r: Option<KeywordSummary>)
    ensures !Truthy(v) ==> r == Some(NoKeywords)
    ensures Truthy(v) ==> (r.Some? <==> (KeywordList(v).Some? &&
      forall i :: 0 <= i < Min(DisplayLimit, |KeywordList(v).value|) ==> KeywordList(v).value[i].Str?))
    ensures Truthy(v) && r.Some? ==> (r.value.Listed?
      && r.value.count == |KeywordList(v).value|
      && |r.value.shown| == Min(DisplayLimit, r.value.count)
      && forall i :: 0 <= i < |r.value.shown| ==> KeywordList(v).value[i] == Str(r.value.shown[i]))
  {
    if !Truthy(v) then Some(NoKeywords)
    else
      match KeywordList(v)
      case None => None
      case Some(list) =>
        var n := Min(DisplayLimit, |list|);
        match Strings(list[..n])
        case None => None
        case Some(shown) => Some(Listed(shown, |list|))
  }

  /** A list made only of strings is joined without raising, and gives those strings back. */
  lemma {:induction false} StringsOfStrs(items: seq<Value>, ks: seq<string>)
    requires |items| == |ks| && forall i :: 0 <= i < |ks| ==> items[i] == Str(ks[i])
    ensures Strings(items) == Some(ks)
    decreases |ks|
  {
    if ks != [] {
      StringsOfStrs(items[1..], ks[1..]);
      assert [ks[0]] + ks[1..] == ks;
    }
  }

  /** A comma-separated keyword string is always listed, without raising. */
  lemma StringKeywordsListed(s: string)
    requires s != ""
    ensures SummarizeKeywords(Str(s)) == Some(Listed(
      SplitKeywords(s)[..Min(DisplayLimit, |SplitKeywords(s)|)], |SplitKeywords(s)|))
  {
    var ks := SplitKeywords(s);
    var list := KeywordList(Str(s)).value;
    var n := Min(DisplayLimit, |ks|);
    StringsOfStrs(list[..n], ks[..n]);
  }

  // ---------------------------------------------------------------------------
  // Images and usage
  // ---------------------------------------------------------------------------

  /** One image as the script presents it. */
  datatype Entry = Entry(
    record: ImageRecord,          // the fourteen fields with their defaults
    aiGenerated: bool,            // whether the ` [AI-Generated]` tag is shown
    uploadDate: Option<Value>,    // the `Upload Date:` line, shown only for a truthy creation date
    keywords: KeywordSummary)

  /** Lines 100-146 for one image: `None` when the image is not an object or its keywords make the script raise. */
  function NormalizeImage(img: Value, fromIsoFormat: string -> Option<Date>): (r: Option<Entry>)
    ensures r.Some? <==> img.Object? && SummarizeKeywords(Get(img.fields, "keywords", Str(""))).Some?
    ensures r.Some? ==> (r.value.record == ReadImage(img.fields)
      && (r.value.aiGenerated <==> Truthy(r.value.record.isAI))
      && (r.value.uploadDate.Some? <==> Truthy(r.value.record.creationDate))
      && (r.value.uploadDate.Some? ==> r.value.uploadDate.value == FormatDate(r.value.record.creationDate, fromIsoFormat))
      && Some(r.value.keywords) == SummarizeKeywords(r.value.record.keywords))
  {
    match img
    case Object(fields) =>
      var record := ReadImage(fields);
      var date := if Truthy(record.creationDate) then Some(FormatDate(record.creationDate, fromIsoFormat)) else None;
      (match SummarizeKeywords(record.keywords)
       case None => None
       case Some(summary) => Some(Entry(record, Truthy(record.isAI), date, summary)))
    case _ => None
  }

  /** `g` applied to every item in order, or `None` as soon as it gives `None` for one. */
  function AllSome<A, B>(items: seq<A>, g: A -> Option<B>): (r: Option<seq<B>>)
    ensures r.Some? <==> forall i :: 0 <= i < |items| ==> g(items[i]).Some?
    ensures r.Some? ==> (|r.value| == |items|
      && forall i :: 0 <= i < |items| ==> g(items[i]) == Some(r.value[i]))
  {
    if items == [] then Some([])
    else
      match g(items[0])
      case None => None
      case Some(e) =>
        match AllSome(items[1..], g)
        case None => None
        case Some(rest) =>
          assert forall i :: 1 <= i < |items| ==> items[i] == items[1..][i - 1];
          Some([e] + rest)
  }

  /** The loop of line 100: every image in the given order, none dropped; `None` as soon as one raises. */
  function NormalizeImages(items: seq<Value>, fromIsoFormat: string -> Option<Date>): (r: Option<seq<Entry>>)
    ensures r.Some? <==> forall i :: 0 <= i < |items| ==> NormalizeImage(items[i], fromIsoFormat).Some?
    ensures r.Some? ==> (|r.value| == |items|
      && forall i :: 0 <= i < |items| ==> NormalizeImage(items[i], fromIsoFormat) == Some(r.value[i]))
  {
    AllSome(items, img => NormalizeImage(img, fromIsoFormat))
  }

  /** Python's `len`, `None` for a value that has none. */
  function Length(v: Value): (r: Option<nat>)
    ensures r.Some? <==> v.Array? || v.Str? || v.Object?
  {
    match v
    case Array(items) => Some(|items|)
    case Str(s) => Some(|s|)
    case Object(fields) => Some(|fields|)
    case _ => None
  }

  /**
   * What `for img in images` hands to the loop body, as far as the body can
   * run: a list gives its items; an empty string or object gives nothing; a
   * non-empty string or object gives strings, on which `img.get` raises.
   */
  function ImageItems(images: Value): (r: Option<seq<Value>>)
    ensures r.Some? ==> Length(images) == Some(|r.value|)
    ensures images.Array? ==> r == Some(images.items)
    ensures !Truthy(images) && (images.Str? || images.Object?) ==> r == Some([])
    ensures r.None? <==> Length(images).None? || (!images.Array? && Truthy(images))
  {
    match images
    case Array(items) => Some(items)
    case Str(s) => if s == "" then Some([]) else None
    case Object(fields) => if fields == map[] then Some([]) else None
    case _ => None
  }

  /** The plan and search quota from `usageData`. */
  datatype Usage = Usage(plan: Value, searchesUsed: Value, searchesLimit: Value)

  /** The `usage.get` reads of line 88: `'N/A'` for a missing plan, `'?'` for missing counts; `None` when `usageData` is not an object. */
  function ReadUsage(usage: Value): (r: Option<Usage>)
    ensures r.Some? <==> usage.Object?
    ensures r.Some? ==> (r.value.plan == Get(usage.fields, "plan", Str("N/A"))
      && r.value.searchesUsed == Get(usage.fields, "searchesUsed", Str("?"))
      && r.value.searchesLimit == Get(usage.fields, "searchesLimit", Str("?")))
  {
    match usage
    case Object(fields) =>
      Some(Usage(Get(fields, "plan", Str("N/A")), Get(fields, "searchesUsed", Str("?")), Get(fields, "searchesLimit", Str("?"))))
    case _ => None
  }

  /** The results page: the count in the header line, the usage figures, and one entry per image. */
  datatype Listing = Listing(found: nat, usage: Usage, entries: seq<Entry>)

  /**
   * Lines 86-146 for a decoded payload `data`. With `raw`, a non-empty
   * `images` object makes `images[0]` raise (JSON object keys are strings).
   */
  function Normalize(data: Value, raw: bool, fromIsoFormat: string -> Option<Date>): (r: Option<Listing>)
    ensures !data.Object? ==> r == None
    ensures data.Object? ==> (var images := Get(data.fields, "images", Array([]));
      r.Some? <==> (ReadUsage(Get(data.fields, "usageData", Object(map[]))).Some?
        && ImageItems(images).Some? && NormalizeImages(ImageItems(images).value, fromIsoFormat).Some?))
    ensures r.Some? ==> r.value.found == |r.value.entries|
    ensures r.Some? ==> var images := Get(data.fields, "images", Array([]));
      && ImageItems(images).Some?
      && NormalizeImages(ImageItems(images).value, fromIsoFormat) == Some(r.value.entries)
      && ReadUsage(Get(data.fields, "usageData", Object(map[]))) == Some(r.value.usage)
  {
    match data
    case Object(fields) =>
      var images := Get(fields, "images", Array([]));
      var usage := Get(fields, "usageData", Object(map[]));
      (match (Length(images), ReadUsage(usage))
       case (Some(found), Some(u)) =>
         if raw && images.Object? && Truthy(images) then None
         else
           (match ImageItems(images)
            case None => None
            case Some(items) =>
              (match NormalizeImages(items, fromIsoFormat)
               case None => None
               case Some(entries) => Some(Listing(found, u, entries))))
       case _ => None)
    case _ => None
  }

  /** A payload without `images` and `usageData` lists no images and the default usage figures. */
  lemma NormalizeDefaults(fields: map<string, Value>, raw: bool, fromIsoFormat: string -> Option<Date>)
    requires "images" !in fields && "usageData" !in fields
    ensures Normalize(Object(fields), raw, fromIsoFormat) == Some(Listing(0, Usage(Str("N/A"), Str("?"), Str("?")), []))
  {
  }

  /** Every image of a listed payload appears, in order, with the fields the script reads from it. */
  lemma ListingFollowsImages(data: Value, raw: bool, fromIsoFormat: string -> Option<Date>, i: nat)
    requires Normalize(data, raw, fromIsoFormat).Some?
    requires data.Object? && "images" in data.fields && data.fields["images"].Array?
    requires i < |data.fields["images"].items|
    ensures var entries := Normalize(data, raw, fromIsoFormat).value.entries;
      var img := data.fields["images"].items[i];
      && i < |entries| && img.Object? && entries[i].record == ReadImage(img.fields)
  {
    var items := data.fields["images"].items;
    assert NormalizeImage(items[i], fromIsoFormat).Some?;
  }

  /**
   * The `--raw` dump of lines 91-98 only prints: the one case where it
   * raises, a non-empty `images` object, is one the loop over the images
   * raises on anyway.
   */
  lemma RawDoesNotChangeListing(data: Value, fromIsoFormat: string -> Option<Date>)
    ensures Normalize(data, true, fromIsoFormat) == Normalize(data, false, fromIsoFormat)
  {
  }
}
