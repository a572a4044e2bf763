/**
 * The command line of the search script (reverse_search.py, lines 162-181):
 * `--raw` and `--ai-only` switch on wherever they appear, `--page N` sets the
 * page, and the first remaining argument is the query (`nature` when there
 * is none). `int()` is the `toInt` parameter; where it raises, the script
 * stops before searching, which is the `BadPage` result.
 */
module CommandLine {

  import opened Wrappers

  /** The state the scanning loop ends in, or the `--page` value `int()` rejected. */
  datatype Scan =
    | Scanned(clean: seq<string>, page: int)
    | BadPage(value: string)

  predicate IsFlag(arg: string)
    ensures IsFlag(arg) <==> arg in {"--raw", "--ai-only"}
    ensures IsFlag(arg) ==> arg != "--page"
  {
    arg == "--raw" || arg == "--ai-only"
  }

  /** Keeps `arg` in front of the arguments kept from the rest. */
  function Keep(arg: string, s: Scan): Scan
  {
    match s
    case Scanned(clean, page) => Scanned([arg] + clean, page)
    case BadPage(v) => s
  }

  /**
   * What scanning `args` yields when `page` has been set so far: a `--page`
   * with a value after it takes that value, the two flags are dropped, and
   * every other argument is kept in order, a final `--page` included.
   */
  function ScanFrom(args: seq<string>, page: int, toInt: string -> Option<int>): (s: Scan)
    ensures s.Scanned? ==> |s.clean| <= |args|
    ensures s.Scanned? ==> forall i :: 0 <= i < |s.clean| ==> !IsFlag(s.clean[i])
    ensures s.BadPage? ==> toInt(s.value).None?
    ensures s.BadPage? ==> exists i :: 0 <= i < |args| - 1 && args[i] == "--page" && args[i + 1] == s.value
    decreases |args|
  {
    if args == [] then Scanned([], page)
    else if args[0] == "--page" && |args| >= 2 then
      match toInt(args[1])
      case None => BadPage(args[1])
      case Some(n) =>
        var s := ScanFrom(args[2..], n, toInt);
        assert s.BadPage? ==> exists i :: 0 <= i < |args| - 1 && args[i] == "--page" && args[i + 1] == s.value by {
          if s.BadPage? {
            var i :| 0 <= i < |args[2..]| - 1 && args[2..][i] == "--page" && args[2..][i + 1] == s.value;
            assert args[i + 2] == "--page" && args[i + 3] == s.value;
          }
        }
        s
    else
      var s := ScanFrom(args[1..], page, toInt);
      assert s.BadPage? ==> exists i :: 0 <= i < |args| - 1 && args[i] == "--page" && args[i + 1] == s.value by {
        if s.BadPage? {
          var i :| 0 <= i < |args[1..]| - 1 && args[1..][i] == "--page" && args[1..][i + 1] == s.value;
          assert args[i + 1] == "--page" && args[i + 2] == s.value;
        }
      }
      if IsFlag(args[0]) then s else Keep(args[0], s)
  }

  /** The arguments already kept, in front of what scanning the rest yields. */
  function Combine(kept: seq<string>, s: Scan): Scan
  {
    match s
    case Scanned(clean, page) => Scanned(kept + clean, page)
    case BadPage(v) => s
  }

  /** The `while` loop of lines 169-179 over `args`, starting from page 1. */
  method ScanArgs(args: seq<string>, toInt: string -> Option<int>) returns (s: Scan)
    ensures s == ScanFrom(args, 1, toInt)
  {
    var page := 1;
    var clean: seq<string> := [];
    var i := 0;
    while i < |args|
      invariant 0 <= i <= |args|
      invariant ScanFrom(args, 1, toInt) == Combine(clean, ScanFrom(args[i..], page, toInt))
      decreases |args| - i
    {
      var rest := args[i..];
      assert rest[0] == args[i];
      if args[i] == "--page" && i + 1 < |args| {
        assert rest[1] == args[i + 1] && rest[2..] == args[i + 2..];
        match toInt(args[i + 1])
        case None =>
          return BadPage(args[i + 1]);
        case Some(n) =>
          page := n;
          i := i + 2;
      } else if IsFlag(args[i]) {
        assert rest[1..] == args[i + 1..];
        i := i + 1;
      } else {
        assert rest[1..] == args[i + 1..];
        var tail := ScanFrom(args[i + 1..], page, toInt);
        if tail.Scanned? {
          assert clean + ([args[i]] + tail.clean) == (clean + [args[i]]) + tail.clean;
        }
        clean := clean + [args[i]];
        i := i + 1;
      }
    }
    assert args[i..] == [];
    assert clean + [] == clean;
    return Scanned(clean, page);
  }

  // ---------------------------------------------------------------------------
  // Properties of the scan
  // ---------------------------------------------------------------------------

  /** The arguments other than the two flags, in order. */
  function WithoutFlags(args: seq<string>): (r: seq<string>)
    ensures |r| <= |args|
  {
    if args == [] then []
    else if IsFlag(args[0]) then WithoutFlags(args[1..])
    else [args[0]] + WithoutFlags(args[1..])
  }

  /** Without `--page`, the page stays where it was and every argument but the flags is kept. */
  lemma {:induction false} ScanWithoutPage(args: seq<string>, page: int, toInt: string -> Option<int>)
    requires "--page" !in args
    ensures ScanFrom(args, page, toInt) == Scanned(WithoutFlags(args), page)
    decreases |args|
  {
    if args != [] {
      assert "--page" !in args[1..] by {
        assert forall x :: x in args[1..] ==> x in args;
      }
      ScanWithoutPage(args[1..], page, toInt);
    }
  }

  /** A kept `--page` can only be the last argument kept: one with a value after it is always consumed. */
  lemma {:induction false} PageKeptOnlyLast(args: seq<string>, page: int, toInt: string -> Option<int>)
    requires ScanFrom(args, page, toInt).Scanned?
    ensures var clean := ScanFrom(args, page, toInt).clean;
      forall i :: 0 <= i < |clean| - 1 ==> clean[i] != "--page"
    decreases |args|
  {
    if args != [] {
      if args[0] == "--page" && |args| >= 2 {
        PageKeptOnlyLast(args[2..], toInt(args[1]).value, toInt);
      } else {
        PageKeptOnlyLast(args[1..], page, toInt);
        if args[0] == "--page" {
          assert args[1..] == [];
        }
      }
    }
  }

  /** The argument list holds no `--page` token. */
  predicate NoPageToken(args: seq<string>)
  {
    forall i :: 0 <= i < |args| ==> args[i] != "--page"
  }

  /**
   * A single `--page N` pair, wherever it stands, sets the page to N and
   * removes both of its tokens; the arguments around it are kept as they
   * would be without it. This is the case of `PagePairThenRest` where no
   * other `--page` follows.
   */
  lemma PagePair(pre: seq<string>, value: string, post: seq<string>, n: int, page: int,
                  toInt: string -> Option<int>)
    requires NoPageToken(pre) && NoPageToken(post)
    requires toInt(value) == Some(n)
    ensures ScanFrom(pre + ["--page", value] + post, page, toInt) == Scanned(WithoutFlags(pre) + WithoutFlags(post), n)
  {
    PagePairThenRest(pre, value, post, n, page, toInt);
    assert "--page" !in post;
    ScanWithoutPage(post, n, toInt);
  }

  /**
   * A `--page N` pair after arguments without `--page` sets the page to N
   * before the rest is scanned: the arguments in front are kept without the
   * flags, and the rest is scanned as it would be on its own from page N, so
   * a later pair overrides this one.
   */
  lemma {:induction false} PagePairThenRest(pre: seq<string>, value: string, post: seq<string>, n: int, page: int,
                                            toInt: string -> Option<int>)
    requires NoPageToken(pre)
    requires toInt(value) == Some(n)
    ensures ScanFrom(pre + ["--page", value] + post, page, toInt) == Combine(WithoutFlags(pre), ScanFrom(post, n, toInt))
    decreases |pre|
  {
    var args := pre + ["--page", value] + post;
    if pre == [] {
      assert args == ["--page", value] + post;
      assert args[0] == "--page" && args[1] == value && args[2..] == post;
      match ScanFrom(post, n, toInt)
      case Scanned(clean, p) => assert [] + clean == clean;
      case BadPage(_) =>
    } else {
      assert args[0] == pre[0] && args[1..] == pre[1..] + ["--page", value] + post;
      assert args[0] != "--page";
      PagePairThenRest(pre[1..], value, post, n, page, toInt);
      match ScanFrom(post, n, toInt)
      case Scanned(clean, p) =>
        if !IsFlag(pre[0]) {
          assert [pre[0]] + (WithoutFlags(pre[1..]) + clean) == ([pre[0]] + WithoutFlags(pre[1..])) + clean;
        }
      case BadPage(_) =>
    }
  }

  /**
   * A `--page` with nothing after it cannot take a value, so it is kept as an
   * ordinary argument (and may become the query) and the page stays as it was.
   */
  lemma {:induction false} TrailingPageKept(pre: seq<string>, page: int, toInt: string -> Option<int>)
    requires NoPageToken(pre)
    ensures ScanFrom(pre + ["--page"], page, toInt) == Scanned(WithoutFlags(pre) + ["--page"], page)
    decreases |pre|
  {
    var args := pre + ["--page"];
    if pre == [] {
      assert args == ["--page"] && args[1..] == [];
    } else {
      assert args[0] == pre[0] && args[1..] == pre[1..] + ["--page"];
      TrailingPageKept(pre[1..], page, toInt);
      if !IsFlag(pre[0]) {
        assert [pre[0]] + (WithoutFlags(pre[1..]) + ["--page"]) == ([pre[0]] + WithoutFlags(pre[1..])) + ["--page"];
      }
    }
  }

  /**
   * The first `--page` whose value `int()` rejects ends the scan with that
   * value, whatever follows it: the other half of `ParseCommandLine`'s
   * failure condition.
   */
  lemma {:induction false} PagePairRejected(pre: seq<string>, value: string, post: seq<string>, page: int,
                                            toInt: string -> Option<int>)
    requires NoPageToken(pre)
    requires toInt(value).None?
    ensures ScanFrom(pre + ["--page", value] + post, page, toInt) == BadPage(value)
    decreases |pre|
  {
    var args := pre + ["--page", value] + post;
    if pre == [] {
      assert args[0] == "--page" && args[1] == value;
    } else {
      assert args[0] == pre[0] && args[1..] == pre[1..] + ["--page", value] + post;
      PagePairRejected(pre[1..], value, post, page, toInt);
    }
  }

  /** The settings the script searches with. */
  datatype Invocation = Invocation(query: string, page: int, aiOnly: bool, raw: bool)

  /** The query used when no argument is left after scanning. */
  const DefaultQuery: string := "nature"

  /** Lines 163-181 over the whole `sys.argv`, whose first element is the script's own name. */
  method ParseCommandLine(argv: seq<string>, toInt: string -> Option<int>) returns (r: Option<Invocation>)
    ensures var args := if argv == [] then [] else argv[1..];
      && (r.None? <==> ScanFrom(args, 1, toInt).BadPage?)
      && (r.Some? ==> var s := ScanFrom(args, 1, toInt);
            && r.value.page == s.page
            && r.value.query == (if s.clean == [] then DefaultQuery else s.clean[0])
            && !IsFlag(r.value.query))
    ensures r.Some? ==> (r.value.raw <==> "--raw" in argv) && (r.value.aiOnly <==> "--ai-only" in argv)
  {
    var raw := "--raw" in argv;
    var aiOnly := "--ai-only" in argv;
    var args := if argv == [] then [] else argv[1..];
    var s := ScanArgs(args, toInt);
    match s
    case BadPage(_) =>
      r := None;
    case Scanned(clean, page) =>
      var query := if clean != [] then clean[0] else DefaultQuery;
      r := Some(Invocation(query, page, aiOnly, raw));
  }
}
