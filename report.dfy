/** The report builder: placeholder filling, the image gallery of the HTML
    report, the size-distribution and results tables, and the grouping of
    annotation rows under their images. Files, the browser, dates and
    number formatting with a fixed count of decimals stay outside. */
module Report {
  import opened Geometry
  import opened Store

  // ---------------------------------------------------------------------
  // Decimal numerals: `str(n)` and `f"{n}"` for a non-negative integer.

  function DigitChar(d: nat): char
    requires d < 10
  {
    "0123456789"[d]
  }

  predicate IsDigit(c: char)
  {
    '0' <= c <= '9'
  }

  function DigitValue(c: char): nat
    requires IsDigit(c)
  {
    (c as int - '0' as int) as nat
  }

  /** The decimal numeral of `n`, without leading zeros. */
  function NatToString(n: nat): (s: string)
    ensures |s| > 0 && forall i :: 0 <= i < |s| ==> IsDigit(s[i])
    ensures s[0] == '0' ==> n == 0
    decreases n
  {
    if n < 10 then [DigitChar(n)] else NatToString(n / 10) + [DigitChar(n % 10)]
  }

  /** The value of a numeral. */
  function ParseNat(s: string): nat
    requires |s| > 0 && forall i :: 0 <= i < |s| ==> IsDigit(s[i])
    decreases |s|
  {
    if |s| == 1 then DigitValue(s[0]) else ParseNat(s[..|s| - 1]) * 10 + DigitValue(s[|s| - 1])
  }

  /** Reading a numeral back gives the number written. */
  lemma {:induction false} NatToStringRoundTrip(n: nat)
    ensures ParseNat(NatToString(n)) == n
    decreases n
  {
    if n >= 10 {
      NatToStringRoundTrip(n / 10);
      var s := NatToString(n);
      assert s[..|s| - 1] == NatToString(n / 10);
    }
  }

  /** Different numbers are written differently. */
  lemma NatToStringInjective(a: nat, b: nat)
    ensures NatToString(a) == NatToString(b) <==> a == b
  {
    NatToStringRoundTrip(a);
    NatToStringRoundTrip(b);
  }

  // ---------------------------------------------------------------------
  // `report_filling` and `get_report`.

  /** `pat` occurs in `s` at index `i`. */
  predicate OccursAt(s: string, pat: string, i: nat)
  {
    i + |pat| <= |s| && s[i..i + |pat|] == pat
  }

  predicate Occurs(s: string, pat: string)
  {
    exists i :: 0 <= i <= |s| && OccursAt(s, pat, i)
  }

  /** `report_filling(template, placeholder, value)`, which is
      `template.replace(placeholder, value)`: the occurrences of `pat` are
      replaced from left to right without overlapping; an empty `pat`
      matches before every character and at the end. */
  function ReportFilling(s: string, pat: string, v: string): string
    decreases |s|
  {
    if pat == [] then
      if s == [] then v else v + [s[0]] + ReportFilling(s[1..], pat, v)
    else if |s| < |pat| then s
    else if s[..|pat|] == pat then v + ReportFilling(s[|pat|..], pat, v)
    else [s[0]] + ReportFilling(s[1..], pat, v)
  }

  /** `str.count(pat)`: the occurrences `replace` replaces. */
  function Count(s: string, pat: string): nat
    decreases |s|
  {
    if pat == [] then |s| + 1
    else if |s| < |pat| then 0
    else if s[..|pat|] == pat then 1 + Count(s[|pat|..], pat)
    else Count(s[1..], pat)
  }

  /** Each occurrence replaced changes the length by `|v| - |pat|`. */
  lemma {:induction false} ReplaceLength(s: string, pat: string, v: string)
    ensures |ReportFilling(s, pat, v)| == |s| + Count(s, pat) * (|v| - |pat|)
    decreases |s|
  {
    var d := |v| - |pat|;
    if pat == [] {
      if s != [] {
        ReplaceLength(s[1..], pat, v);
        assert (Count(s[1..], pat) + 1) * d == Count(s[1..], pat) * d + d;
      }
    } else if |s| >= |pat| {
      if s[..|pat|] == pat {
        ReplaceLength(s[|pat|..], pat, v);
        assert (Count(s[|pat|..], pat) + 1) * d == Count(s[|pat|..], pat) * d + d;
      } else {
        ReplaceLength(s[1..], pat, v);
      }
    }
  }

  /** A non-empty placeholder is counted exactly when it occurs. */
  lemma {:induction false} CountZeroIff(s: string, pat: string)
    requires pat != []
    ensures Count(s, pat) == 0 <==> !Occurs(s, pat)
    decreases |s|
  {
    if |s| < |pat| {
      forall i | 0 <= i <= |s| ensures !OccursAt(s, pat, i) {
      }
    } else if s[..|pat|] == pat {
      assert OccursAt(s, pat, 0);
    } else {
      CountZeroIff(s[1..], pat);
      OccursStep(s, pat);
    }
  }

  /** Past a non-matching first character, `pat` occurs in `s` exactly when
      it occurs in the rest. */
  lemma OccursStep(s: string, pat: string)
    requires |s| >= |pat| && s[..|pat|] != pat
    ensures Occurs(s, pat) <==> Occurs(s[1..], pat)
  {
    if Occurs(s, pat) {
      var i :| 0 <= i <= |s| && OccursAt(s, pat, i);
      assert i > 0;
      assert s[1..][i - 1..i - 1 + |pat|] == s[i..i + |pat|];
      assert OccursAt(s[1..], pat, i - 1);
    }
    if Occurs(s[1..], pat) {
      var i :| 0 <= i <= |s[1..]| && OccursAt(s[1..], pat, i);
      assert s[i + 1..i + 1 + |pat|] == s[1..][i..i + |pat|];
      assert OccursAt(s, pat, i + 1);
    }
  }

  /** A template without the placeholder comes back unchanged. */
  lemma ReplaceAbsent(s: string, pat: string, v: string)
    requires pat != [] && !Occurs(s, pat)
    ensures ReportFilling(s, pat, v) == s
  {
    CountZeroIff(s, pat);
    ReplaceUncounted(s, pat, v);
  }

  lemma {:induction false} ReplaceUncounted(s: string, pat: string, v: string)
    requires pat != [] && Count(s, pat) == 0
    ensures ReportFilling(s, pat, v) == s
    decreases |s|
  {
    if |s| >= |pat| {
      ReplaceUncounted(s[1..], pat, v);
      assert [s[0]] + s[1..] == s;
    }
  }

  /** Replacing the placeholder by itself changes nothing. */
  lemma {:induction false} ReplaceBySelf(s: string, pat: string)
    ensures ReportFilling(s, pat, pat) == s
    decreases |s|
  {
    if pat == [] {
      if s != [] {
        ReplaceBySelf(s[1..], pat);
        assert [s[0]] + s[1..] == s;
      }
    } else if |s| >= |pat| {
      if s[..|pat|] == pat {
        ReplaceBySelf(s[|pat|..], pat);
        assert s[..|pat|] + s[|pat|..] == s;
      } else {
        ReplaceBySelf(s[1..], pat);
        assert [s[0]] + s[1..] == s;
      }
    }
  }

  /** The template after the first `|params|` pairs of the dictionary, in
      its insertion order, have been filled in. */
  function FillAll(template: string, params: seq<(string, string)>): string
    decreases |params|
  {
    if params == [] then template
    else
      var last := params[|params| - 1];
      ReportFilling(FillAll(template, params[..|params| - 1]), last.0, last.1)
  }

  /** The fill loop of `get_report`, on the template already read. */
  method GetReport(template: string, params: seq<(string, string)>) returns (filled: string)
    ensures filled == FillAll(template, params)
  {
    filled := template;
    var i := 0;
    while i < |params|
      invariant 0 <= i <= |params|
      invariant filled == FillAll(template, params[..i])
    {
      var (placeholder, value) := params[i];
      filled := ReportFilling(filled, placeholder, value);
      assert params[..i + 1][..i] == params[..i];
      i := i + 1;
    }
    assert params[..|params|] == params;
  }

  /** The pairs are applied one batch after the other: filling with
      `a + b` is filling with `a`, then with `b`. */
  lemma {:induction false} FillAllAppend(template: string, a: seq<(string, string)>, b: seq<(string, string)>)
    ensures FillAll(template, a + b) == FillAll(FillAll(template, a), b)
    decreases |b|
  {
    if b == [] {
      assert a + b == a;
    } else {
      assert (a + b)[..|a + b| - 1] == a + b[..|b| - 1];
      FillAllAppend(template, a, b[..|b| - 1]);
    }
  }

  /** A template holding none of the placeholders comes back unchanged. */
  lemma {:induction false} FillAllAbsent(template: string, params: seq<(string, string)>)
    requires forall k :: 0 <= k < |params| ==> params[k].0 != [] && !Occurs(template, params[k].0)
    ensures FillAll(template, params) == template
    decreases |params|
  {
    if params != [] {
      FillAllAbsent(template, params[..|params| - 1]);
      ReplaceAbsent(template, params[|params| - 1].0, params[|params| - 1].1);
    }
  }

  // ---------------------------------------------------------------------
  // `generate_html`: the gallery pages, three image pairs to a page. Each
  // `html +=` appends one line; the lines are kept as a list of line kinds
  // and the HTML is the concatenation of their texts.

  datatype Line =
    | ArticleOpen | GalleryOpen | ItemOpen | OriginalTitle | AnnotatedTitle
    | Image(src: string) | Caption(number: nat) | ItemClose
    | GalleryClose | Page(number: nat) | ArticleClose

  /** The text the source appends for each kind of line. */
  function Text(line: Line): string
  {
    match line
    case ArticleOpen => "    <article>\n"
    case GalleryOpen => "        <div class=\"gallery\">\n"
    case ItemOpen => "            <div class=\"gallery-item\">\n"
    case OriginalTitle => "                <p>Исходные изображения</p>\n"
    case AnnotatedTitle => "                <p>Аннотированные изображения</p>\n"
    case Image(src) => "                <img src=\"" + src + "\">\n"
    case Caption(n) => "                <div class=\"caption\">Снимок " + NatToString(n) + "</div>\n"
    case ItemClose => "            </div>\n"
    case GalleryClose => "        </div>\n"
    case Page(n) => "        <div class=\"page\">Страница " + NatToString(n) + "</div>\n"
    case ArticleClose => "    </article>\n"
  }

  /** The texts of a list of lines, in order. */
  function Texts(lines: seq<Line>): (r: seq<string>)
    ensures |r| == |lines|
  {
    if lines == [] then [] else Texts(lines[..|lines| - 1]) + [Text(lines[|lines| - 1])]
  }

  /** The concatenation of a list of strings. */
  function Concat(parts: seq<string>): string
  {
    if parts == [] then "" else Concat(parts[..|parts| - 1]) + parts[|parts| - 1]
  }

  /** The HTML of a list of lines. */
  function Render(lines: seq<Line>): string
  {
    Concat(Texts(lines))
  }

  /** The lines that close a page with its number. */
  function PageEnd(page: nat): seq<Line>
  {
    [GalleryClose, Page(page), ArticleClose]
  }

  /** A page starts at every third pair. */
  predicate StartsPage(k: nat)
  {
    k % 3 == 0
  }

  /** `(index - 2) % 3 == 0 and index != len(images) - 1`: a page is closed
      after the third pair of a page, unless that pair is the last one. */
  predicate EndsPage(k: nat, n: nat)
  {
    (k - 2) % 3 == 0 && k != n - 1
  }

  /** The pages closed inside the loop before index `i`. */
  function PagesClosed(i: nat, n: nat): nat
  {
    if i == 0 then 0 else PagesClosed(i - 1, n) + (if EndsPage(i - 1, n) then 1 else 0)
  }

  /** One gallery item: the column title on the first pair of a page, the
      image and its caption. */
  function ItemLines(titled: bool, title: Line, src: string, caption: nat): seq<Line>
  {
    [ItemOpen] + (if titled then [title] else []) + [Image(src)] + [Caption(caption)] + [ItemClose]
  }

  /** The page opening emitted before the pair at index `k`. */
  function PageStart(k: nat): seq<Line>
  {
    if StartsPage(k) then [ArticleOpen] + [GalleryOpen] else []
  }

  /** The page closing emitted after the pair at index `k`, of `n`. */
  function PageBreak(k: nat, n: nat): seq<Line>
  {
    if EndsPage(k, n) then PageEnd(2 + PagesClosed(k, n)) else []
  }

  /** The lines emitted for the pair at index `k`, of `n`. */
  function PairLines(original: string, annotated: string, k: nat, n: nat): seq<Line>
  {
    PageStart(k)
    + ItemLines(StartsPage(k), OriginalTitle, original, k + 1)
    + ItemLines(StartsPage(k), AnnotatedTitle, annotated, k + 1)
    + PageBreak(k, n)
  }

  /** The lines after the first `i` iterations of the loop. */
  function LinesUpTo(images: seq<(string, string)>, i: nat): seq<Line>
    requires i <= |images|
  {
    if i == 0 then []
    else LinesUpTo(images, i - 1) + PairLines(images[i - 1].0, images[i - 1].1, i - 1, |images|)
  }

  /** All the lines: the loop's, then the closing of the last page. */
  function GalleryLines(images: seq<(string, string)>): seq<Line>
  {
    LinesUpTo(images, |images|) + PageEnd(2 + PagesClosed(|images|, |images|))
  }

  lemma {:induction false} TextsAppend(a: seq<Line>, b: seq<Line>)
    ensures Texts(a + b) == Texts(a) + Texts(b)
    decreases |b|
  {
    if b == [] {
      assert a + b == a;
    } else {
      var b' := b[..|b| - 1];
      assert (a + b)[..|a + b| - 1] == a + b';
      TextsAppend(a, b');
    }
  }

  lemma {:induction false} ConcatAppend(a: seq<string>, b: seq<string>)
    ensures Concat(a + b) == Concat(a) + Concat(b)
    decreases |b|
  {
    if b == [] {
      assert a + b == a;
    } else {
      var b' := b[..|b| - 1];
      assert (a + b)[..|a + b| - 1] == a + b';
      ConcatAppend(a, b');
    }
  }

  /** Rendering distributes over concatenation of line lists. */
  lemma RenderAppend(a: seq<Line>, b: seq<Line>)
    ensures Render(a + b) == Render(a) + Render(b)
  {
    TextsAppend(a, b);
    ConcatAppend(Texts(a), Texts(b));
  }

  /** A single line renders as its text. */
  lemma RenderOne(line: Line)
    ensures Render([line]) == Text(line)
  {
    assert [line][..0] == [];
    assert Texts([line]) == Texts([]) + [Text(line)];
    assert Texts([line]) == [Text(line)];
    assert [Text(line)][..0] == [];
    assert Concat([Text(line)]) == Concat([]) + Text(line);
    assert "" + Text(line) == Text(line);
  }

  // Properties of the gallery's lines.

  /** How many of the lines are `line`. */
  function CountOf(lines: seq<Line>, line: Line): nat
  {
    if lines == [] then 0
    else CountOf(lines[..|lines| - 1], line) + (if lines[|lines| - 1] == line then 1 else 0)
  }

  lemma {:induction false} CountOfAppend(a: seq<Line>, b: seq<Line>, line: Line)
    ensures CountOf(a + b, line) == CountOf(a, line) + CountOf(b, line)
    decreases |b|
  {
    if b == [] {
      assert a + b == a;
    } else {
      assert (a + b)[..|a + b| - 1] == a + b[..|b| - 1];
      CountOfAppend(a, b[..|b| - 1], line);
    }
  }

  lemma CountOfOne(x: Line, line: Line)
    ensures CountOf([x], line) == if x == line then 1 else 0
  {
  }

  lemma CountOfTwo(x: Line, y: Line, line: Line)
    ensures CountOf([x] + [y], line) == (if x == line then 1 else 0) + (if y == line then 1 else 0)
  {
    CountOfAppend([x], [y], line);
    CountOfOne(x, line);
    CountOfOne(y, line);
  }

  lemma ItemCount(titled: bool, title: Line, src: string, caption: nat, line: Line)
    ensures CountOf(ItemLines(titled, title, src, caption), line)
         == (if line == ItemOpen then 1 else 0) + (if titled && title == line then 1 else 0)
          + (if line == Image(src) then 1 else 0) + (if line == Caption(caption) then 1 else 0)
          + (if line == ItemClose then 1 else 0)
  {
    var head := [ItemOpen] + (if titled then [title] else []);
    if titled {
      CountOfTwo(ItemOpen, title, line);
    } else {
      assert head == [ItemOpen];
      CountOfOne(ItemOpen, line);
    }
    CountOfAppend(head, [Image(src)], line);
    CountOfAppend(head + [Image(src)], [Caption(caption)], line);
    CountOfAppend(head + [Image(src)] + [Caption(caption)], [ItemClose], line);
    CountOfOne(Image(src), line);
    CountOfOne(Caption(caption), line);
    CountOfOne(ItemClose, line);
  }

  lemma PageEndCount(page: nat, line: Line)
    ensures CountOf(PageEnd(page), line)
         == (if line == GalleryClose then 1 else 0) + (if line == Page(page) then 1 else 0)
          + (if line == ArticleClose then 1 else 0)
  {
    CountOfTwo(GalleryClose, Page(page), line);
    assert PageEnd(page) == [GalleryClose] + [Page(page)] + [ArticleClose];
    CountOfAppend([GalleryClose] + [Page(page)], [ArticleClose], line);
    CountOfOne(ArticleClose, line);
  }

  /** The lines of one pair, counted piece by piece. */
  lemma PairCount(original: string, annotated: string, k: nat, n: nat, line: Line)
    ensures CountOf(PairLines(original, annotated, k, n), line)
         == CountOf(PageStart(k), line)
          + CountOf(ItemLines(StartsPage(k), OriginalTitle, original, k + 1), line)
          + CountOf(ItemLines(StartsPage(k), AnnotatedTitle, annotated, k + 1), line)
          + CountOf(PageBreak(k, n), line)
  {
    var a, b, c := PageStart(k), ItemLines(StartsPage(k), OriginalTitle, original, k + 1),
      ItemLines(StartsPage(k), AnnotatedTitle, annotated, k + 1);
    CountOfAppend(a, b, line);
    CountOfAppend(a + b, c, line);
    CountOfAppend(a + b + c, PageBreak(k, n), line);
  }

  /** One more pair adds its own lines to the count. */
  lemma CountUpToStep(images: seq<(string, string)>, j: nat, line: Line)
    requires j < |images|
    ensures CountOf(LinesUpTo(images, j + 1), line)
         == CountOf(LinesUpTo(images, j), line) + CountOf(PairLines(images[j].0, images[j].1, j, |images|), line)
  {
    CountOfAppend(LinesUpTo(images, j), PairLines(images[j].0, images[j].1, j, |images|), line);
  }

  /** The lines that head a page: the article opening and the two column
      titles. */
  predicate HeadsPage(line: Line)
  {
    line == ArticleOpen || line == OriginalTitle || line == AnnotatedTitle
  }

  /** A pair emits each page-heading line once when it starts a page, and
      not at all otherwise. */
  lemma PairHeadCount(original: string, annotated: string, k: nat, n: nat, line: Line)
    requires HeadsPage(line)
    ensures CountOf(PairLines(original, annotated, k, n), line) == if k % 3 == 0 then 1 else 0
  {
    PairCount(original, annotated, k, n, line);
    ItemCount(StartsPage(k), OriginalTitle, original, k + 1, line);
    ItemCount(StartsPage(k), AnnotatedTitle, annotated, k + 1, line);
    if StartsPage(k) {
      CountOfTwo(ArticleOpen, GalleryOpen, line);
    }
    if EndsPage(k, n) {
      PageEndCount(2 + PagesClosed(k, n), line);
    }
  }

  /** The first `i` pairs open `ceil(i/3)` pages, each with its two titles. */
  lemma {:induction false} HeadsUpTo(images: seq<(string, string)>, i: nat, line: Line)
    requires i <= |images| && HeadsPage(line)
    ensures CountOf(LinesUpTo(images, i), line) == (i + 2) / 3
  {
    if i > 0 {
      var j := i - 1;
      HeadsUpTo(images, j, line);
      CountUpToStep(images, j, line);
      PairHeadCount(images[j].0, images[j].1, j, |images|, line);
      assert (j + 2) / 3 + (if j % 3 == 0 then 1 else 0) == (j + 3) / 3;
    }
  }

  /** `n` pairs open `ceil(n/3)` articles, and every page carries the two
      column titles once. */
  lemma GalleryHeads(images: seq<(string, string)>, line: Line)
    requires HeadsPage(line)
    ensures CountOf(GalleryLines(images), line) == (|images| + 2) / 3
  {
    HeadsUpTo(images, |images|, line);
    CountOfAppend(LinesUpTo(images, |images|), PageEnd(2 + PagesClosed(|images|, |images|)), line);
    PageEndCount(2 + PagesClosed(|images|, |images|), line);
  }

  /** Before the last pair, a page has been closed after every third pair. */
  lemma {:induction false} PagesClosedBefore(i: nat, n: nat)
    requires i < n
    ensures PagesClosed(i, n) == i / 3
  {
    if i > 0 {
      PagesClosedBefore(i - 1, n);
    }
  }

  /** The loop closes `ceil(n/3) - 1` pages: every full page but the last. */
  lemma PagesClosedInLoop(n: nat)
    ensures PagesClosed(n, n) == if n == 0 then 0 else (n + 2) / 3 - 1
  {
    if n > 0 {
      PagesClosedBefore(n - 1, n);
    }
  }

  /** The HTML always ends by closing a page, even with no pairs at all; the
      last page is numbered `1 + ceil(n/3)`, page numbers starting at 2. */
  lemma GalleryEnd(images: seq<(string, string)>)
    ensures var lines := GalleryLines(images);
      var last := if |images| == 0 then 2 else 1 + (|images| + 2) / 3;
      |lines| >= 3 && lines[|lines| - 3..] == [GalleryClose, Page(last), ArticleClose]
  {
    PagesClosedInLoop(|images|);
  }

  /** A pair emits no article closing or page number unless it ends a page. */
  lemma PairCloseCount(original: string, annotated: string, k: nat, n: nat)
    ensures CountOf(PairLines(original, annotated, k, n), ArticleClose) == if EndsPage(k, n) then 1 else 0
  {
    PairCount(original, annotated, k, n, ArticleClose);
    ItemCount(StartsPage(k), OriginalTitle, original, k + 1, ArticleClose);
    ItemCount(StartsPage(k), AnnotatedTitle, annotated, k + 1, ArticleClose);
    if StartsPage(k) {
      CountOfTwo(ArticleOpen, GalleryOpen, ArticleClose);
    }
    if EndsPage(k, n) {
      PageEndCount(2 + PagesClosed(k, n), ArticleClose);
    }
  }

  lemma {:induction false} ClosesUpTo(images: seq<(string, string)>, i: nat)
    requires i <= |images|
    ensures CountOf(LinesUpTo(images, i), ArticleClose) == PagesClosed(i, |images|)
  {
    if i > 0 {
      var j := i - 1;
      ClosesUpTo(images, j);
      CountUpToStep(images, j, ArticleClose);
      PairCloseCount(images[j].0, images[j].1, j, |images|);
    }
  }

  /** With at least one pair, every article opened is closed once; with none,
      the HTML is a lone page closing. */
  lemma GalleryBalanced(images: seq<(string, string)>)
    ensures |images| > 0 ==>
      CountOf(GalleryLines(images), ArticleClose) == CountOf(GalleryLines(images), ArticleOpen)
    ensures |images| == 0 ==> GalleryLines(images) == PageEnd(2)
  {
    ClosesUpTo(images, |images|);
    PagesClosedInLoop(|images|);
    GalleryHeads(images, ArticleOpen);
    CountOfAppend(LinesUpTo(images, |images|), PageEnd(2 + PagesClosed(|images|, |images|)), ArticleClose);
    PageEndCount(2 + PagesClosed(|images|, |images|), ArticleClose);
  }

  /** Each pair emits two gallery items captioned with its 1-based number. */
  lemma PairCaptionCount(original: string, annotated: string, k: nat, n: nat, c: nat)
    ensures CountOf(PairLines(original, annotated, k, n), Caption(c)) == if c == k + 1 then 2 else 0
  {
    PairCount(original, annotated, k, n, Caption(c));
    ItemCount(StartsPage(k), OriginalTitle, original, k + 1, Caption(c));
    ItemCount(StartsPage(k), AnnotatedTitle, annotated, k + 1, Caption(c));
    if StartsPage(k) {
      CountOfTwo(ArticleOpen, GalleryOpen, Caption(c));
    }
    if EndsPage(k, n) {
      PageEndCount(2 + PagesClosed(k, n), Caption(c));
    }
  }

  lemma {:induction false} CaptionsUpTo(images: seq<(string, string)>, i: nat, c: nat)
    requires i <= |images|
    ensures CountOf(LinesUpTo(images, i), Caption(c)) == if 1 <= c <= i then 2 else 0
  {
    if i > 0 {
      var j := i - 1;
      CaptionsUpTo(images, j, c);
      CountUpToStep(images, j, Caption(c));
      PairCaptionCount(images[j].0, images[j].1, j, |images|, c);
    }
  }

  /** The captions are `Снимок 1` to `Снимок n`, each on exactly two items. */
  lemma GalleryCaptions(images: seq<(string, string)>, c: nat)
    ensures CountOf(GalleryLines(images), Caption(c)) == if 1 <= c <= |images| then 2 else 0
  {
    CaptionsUpTo(images, |images|, c);
    CountOfAppend(LinesUpTo(images, |images|), PageEnd(2 + PagesClosed(|images|, |images|)), Caption(c));
    PageEndCount(2 + PagesClosed(|images|, |images|), Caption(c));
  }

  /** `generate_html(images)`. */
  method GenerateHtml(images: seq<(string, string)>) returns (html: string)
    ensures html == Render(GalleryLines(images))
  {
    html := "";
    var pageNumber := 2;
    var index := 0;
    while index < |images|
      invariant 0 <= index <= |images|
      invariant html == Render(LinesUpTo(images, index))
      invariant pageNumber == 2 + PagesClosed(index, |images|)
    {
      html, pageNumber := EmitPair(html, images[index].0, images[index].1, index, |images|, pageNumber);
      RenderAppend(LinesUpTo(images, index), PairLines(images[index].0, images[index].1, index, |images|));
      index := index + 1;
    }
    assert "" + html == html;
    html := EmitPageEnd(html, "", LinesUpTo(images, |images|), pageNumber);
    assert "" + html == html;
  }

  /** One iteration of the loop of `generate_html`, for the pair at `index`. */
  method EmitPair(html: string, originalImage: string, annotatedImage: string,
                  index: nat, count: nat, pageNumber: nat)
    returns (html': string, pageNumber': nat)
    requires index < count && pageNumber == 2 + PagesClosed(index, count)
    ensures html' == html + Render(PairLines(originalImage, annotatedImage, index, count))
    ensures pageNumber' == 2 + PagesClosed(index + 1, count)
  {
    var captionNumber := index + 1;
    ghost var a, b, c := PageStart(index), ItemLines(StartsPage(index), OriginalTitle, originalImage, index + 1),
      ItemLines(StartsPage(index), AnnotatedTitle, annotatedImage, index + 1);
    html' := EmitPageStart(html, index);
    assert html + "" == html;
    assert html' == html + Render(a);
    html' := EmitItem(html', html, a, index % 3 == 0, OriginalTitle, originalImage, captionNumber);
    html' := EmitItem(html', html, a + b, index % 3 == 0, AnnotatedTitle, annotatedImage, captionNumber);
    html', pageNumber' := EmitPageBreak(html', html, a + b + c, index, count, pageNumber);
  }

  /** `if index % 3 == 0`: the opening of a new page. */
  method EmitPageStart(html: string, index: nat) returns (html': string)
    ensures html' == html + Render(PageStart(index))
  {
    html' := html;
    assert html + "" == html;
    assert Render([]) == "";
    if index % 3 == 0 {
      html' := Emit(html', html, [], ArticleOpen);
      html' := Emit(html', html, [ArticleOpen], GalleryOpen);
    }
  }

  /** `if (index - 2) % 3 == 0 and index != len(images) - 1`: the closing of
      a full page that is not the last. */
  method EmitPageBreak(html: string, ghost base: string, ghost done: seq<Line>, index: nat, count: nat, pageNumber: nat)
    returns (html': string, pageNumber': nat)
    requires html == base + Render(done)
    requires pageNumber == 2 + PagesClosed(index, count)
    ensures html' == base + Render(done + PageBreak(index, count))
    ensures pageNumber' == 2 + PagesClosed(index + 1, count)
  {
    html', pageNumber' := html, pageNumber;
    if (index - 2) % 3 == 0 && index != count - 1 {
      html' := EmitPageEnd(html', base, done, pageNumber);
      pageNumber' := pageNumber + 1;
    } else {
      assert done + [] == done;
    }
  }

  /** The three lines that close a page with its number. */
  method EmitPageEnd(html: string, ghost base: string, ghost done: seq<Line>, pageNumber: nat) returns (html': string)
    requires html == base + Render(done)
    ensures html' == base + Render(done + PageEnd(pageNumber))
  {
    html' := Emit(html, base, done, GalleryClose);
    html' := Emit(html', base, done + [GalleryClose], Page(pageNumber));
    html' := Emit(html', base, done + [GalleryClose] + [Page(pageNumber)], ArticleClose);
    assert done + [GalleryClose] + [Page(pageNumber)] + [ArticleClose] == done + PageEnd(pageNumber);
  }

  /** The `html +=` lines of one gallery item. */
  method EmitItem(html: string, ghost base: string, ghost done: seq<Line>,
                  titled: bool, title: Line, src: string, caption: nat) returns (html': string)
    requires html == base + Render(done)
    ensures html' == base + Render(done + ItemLines(titled, title, src, caption))
  {
    html' := EmitItemHead(html, base, done, titled, title);
    ghost var head := done + ([ItemOpen] + (if titled then [title] else []));
    html' := Emit(html', base, head, Image(src));
    html' := Emit(html', base, head + [Image(src)], Caption(caption));
    html' := Emit(html', base, head + [Image(src)] + [Caption(caption)], ItemClose);
    ItemLinesAfter(done, titled, title, src, caption);
  }

  lemma ItemLinesAfter(done: seq<Line>, titled: bool, title: Line, src: string, caption: nat)
    ensures done + ([ItemOpen] + (if titled then [title] else [])) + [Image(src)] + [Caption(caption)] + [ItemClose]
         == done + ItemLines(titled, title, src, caption)
  {
  }

  /** The opening of a gallery item and, on the first pair of a page, its
      column title. */
  method EmitItemHead(html: string, ghost base: string, ghost done: seq<Line>, titled: bool, title: Line)
    returns (html': string)
    requires html == base + Render(done)
    ensures html' == base + Render(done + ([ItemOpen] + (if titled then [title] else [])))
  {
    html' := Emit(html, base, done, ItemOpen);
    if titled {
      html' := Emit(html', base, done + [ItemOpen], title);
      assert done + [ItemOpen] + [title] == done + ([ItemOpen] + [title]);
    } else {
      assert done + ([ItemOpen] + []) == done + [ItemOpen];
    }
  }

  /** `html += line`, where the HTML so far is `base` followed by the lines
      `done`. */
  method Emit(html: string, ghost base: string, ghost done: seq<Line>, line: Line) returns (html': string)
    requires html == base + Render(done)
    ensures html' == base + Render(done + [line])
  {
    html' := html + Text(line);
    AppendAssoc(base, Render(done), Text(line));
    RenderAppend(done, [line]);
    RenderOne(line);
  }

  /** Concatenation of strings is associative; stated once so that `Emit`
      does not have to prove it in a context full of rendering facts. */
  lemma AppendAssoc(a: string, b: string, c: string)
    ensures (a + b) + c == a + (b + c)
  {
  }

  // ---------------------------------------------------------------------
  // The grouping comprehension of `get_report_data`: each image carries the
  // annotation rows of its own id, keyed by their position in the list of
  // all rows fetched.

  /** An image row of the report data: its id, porosity and scale. */
  datatype ImageRecord = ImageRecord(imageId: nat, porosity: real, scalePx: real, scaleMkm: real)

  /** An image of the report data with its annotation rows, as the pairs of
      an insertion-ordered dictionary. */
  datatype ReportImage = ReportImage(record: ImageRecord, mezo: seq<(nat, MezoRow)>)

  /** `{i: row for i, row in enumerate(rows) if row.image_id == imageId}`,
      the positions counted from `base`. */
  function MezoDictFrom(rows: seq<MezoRow>, imageId: nat, base: nat): seq<(nat, MezoRow)>
    decreases |rows|
  {
    if rows == [] then []
    else (if rows[0].imageId == imageId then [(base, rows[0])] else []) + MezoDictFrom(rows[1..], imageId, base + 1)
  }

  function MezoDict(rows: seq<MezoRow>, imageId: nat): seq<(nat, MezoRow)>
  {
    MezoDictFrom(rows, imageId, 0)
  }

  /** The `'images'` entry: one report image per image row, in order. */
  function ReportImages(images: seq<ImageRecord>, rows: seq<MezoRow>): seq<ReportImage>
  {
    seq(|images|, i requires 0 <= i < |images| => ReportImage(images[i], MezoDict(rows, images[i].imageId)))
  }

  function Values(pairs: seq<(nat, MezoRow)>): (r: seq<MezoRow>)
    ensures |r| == |pairs| && forall i :: 0 <= i < |pairs| ==> r[i] == pairs[i].1
  {
    seq(|pairs|, i requires 0 <= i < |pairs| => pairs[i].1)
  }

  /** A pair is in the dictionary exactly when its key is the position of
      a row of that image and its value is that row. */
  lemma {:induction false} MezoDictFromMembers(rows: seq<MezoRow>, imageId: nat, base: nat, k: nat, row: MezoRow)
    ensures (k, row) in MezoDictFrom(rows, imageId, base)
        <==> base <= k < base + |rows| && rows[k - base] == row && row.imageId == imageId
    decreases |rows|
  {
    if rows != [] {
      var rest := MezoDictFrom(rows[1..], imageId, base + 1);
      var head: seq<(nat, MezoRow)> := if rows[0].imageId == imageId then [(base, rows[0])] else [];
      assert MezoDictFrom(rows, imageId, base) == head + rest;
      MezoDictFromMembers(rows[1..], imageId, base + 1, k, row);
      assert (k, row) in head + rest <==> (k, row) in head || (k, row) in rest;
      assert (k, row) in head <==> k == base && rows[0] == row && row.imageId == imageId;
      if base < k < base + |rows| {
        assert rows[1..][k - (base + 1)] == rows[k - base];
      }
    }
  }

  /** The keys are increasing and none is below `base`. */
  predicate KeysIncreasingFrom(d: seq<(nat, MezoRow)>, base: nat)
  {
    forall i, j :: 0 <= i < j < |d| ==> base <= d[i].0 < d[j].0
  }

  /** The keys come in increasing order, so the dictionary has no key twice. */
  lemma {:induction false} MezoDictFromKeys(rows: seq<MezoRow>, imageId: nat, base: nat)
    ensures KeysIncreasingFrom(MezoDictFrom(rows, imageId, base), base)
    decreases |rows|
  {
    if rows != [] {
      var rest := MezoDictFrom(rows[1..], imageId, base + 1);
      MezoDictFromKeys(rows[1..], imageId, base + 1);
      forall k | 0 <= k < |rest| ensures base < rest[k].0 {
        MezoDictFromMembers(rows[1..], imageId, base + 1, rest[k].0, rest[k].1);
      }
      var head: seq<(nat, MezoRow)> := if rows[0].imageId == imageId then [(base, rows[0])] else [];
      var d := head + rest;
      assert d == MezoDictFrom(rows, imageId, base);
      forall i, j | 0 <= i < j < |d| ensures base <= d[i].0 < d[j].0 {
        if head == [] {
          assert d[i] == rest[i] && d[j] == rest[j];
        } else if i == 0 {
          assert d[i] == (base, rows[0]) && d[j] == rest[j - 1];
        } else {
          assert d[i] == rest[i - 1] && d[j] == rest[j - 1];
        }
      }
    }
  }

  /** The values, in the dictionary's order, are the rows of the image in
      the order they were fetched. */
  lemma {:induction false} MezoDictFromValues(rows: seq<MezoRow>, imageId: nat, base: nat)
    ensures Values(MezoDictFrom(rows, imageId, base)) == RowsOf(rows, imageId)
    decreases |rows|
  {
    if rows != [] {
      MezoDictFromValues(rows[1..], imageId, base + 1);
      var head: seq<(nat, MezoRow)> := if rows[0].imageId == imageId then [(base, rows[0])] else [];
      assert Values(head + MezoDictFrom(rows[1..], imageId, base + 1))
          == Values(head) + Values(MezoDictFrom(rows[1..], imageId, base + 1));
    }
  }

  /** Each image of the report holds exactly the rows with its id, keyed by
      their global position, in the order fetched. */
  lemma ReportImageRows(images: seq<ImageRecord>, rows: seq<MezoRow>, i: nat, k: nat, row: MezoRow)
    requires i < |images|
    ensures var mezo := ReportImages(images, rows)[i].mezo;
      ((k, row) in mezo <==> k < |rows| && rows[k] == row && row.imageId == images[i].imageId)
      && Values(mezo) == RowsOf(rows, images[i].imageId)
  {
    MezoDictFromMembers(rows, images[i].imageId, 0, k, row);
    MezoDictFromValues(rows, images[i].imageId, 0);
  }

  /** Images with different ids share no row: each row sits under at most
      one image. */
  lemma ReportImagesDisjoint(images: seq<ImageRecord>, rows: seq<MezoRow>, i: nat, j: nat, k: nat)
    requires i < |images| && j < |images| && images[i].imageId != images[j].imageId
    ensures forall a, b :: (k, a) in ReportImages(images, rows)[i].mezo ==> (k, b) !in ReportImages(images, rows)[j].mezo
  {
    forall a, b | (k, a) in ReportImages(images, rows)[i].mezo
      ensures (k, b) !in ReportImages(images, rows)[j].mezo
    {
      ReportImageRows(images, rows, i, k, a);
      ReportImageRows(images, rows, j, k, b);
    }
  }

  // ---------------------------------------------------------------------
  // The size-distribution table of `create_pdf_report`.

  function Sum(xs: seq<nat>): nat
  {
    if xs == [] then 0 else Sum(xs[..|xs| - 1]) + xs[|xs| - 1]
  }

  /** The six size classes of the table, in micrometres:
      `<= 2`, `(2, 5]`, `(5, 10]`, `(10, 20]`, `(20, 50]`, `> 50`. */
  predicate InBucket(b: nat, x: real)
  {
    match b
    case 0 => x <= 2.0
    case 1 => 2.0 < x <= 5.0
    case 2 => 5.0 < x <= 10.0
    case 3 => 10.0 < x <= 20.0
    case 4 => 20.0 < x <= 50.0
    case 5 => x > 50.0
    case _ => false
  }

  /** The class a size falls in. */
  function Bucket(x: real): (b: nat)
    ensures b < 6 && InBucket(b, x)
  {
    if x <= 2.0 then 0
    else if x <= 5.0 then 1
    else if x <= 10.0 then 2
    else if x <= 20.0 then 3
    else if x <= 50.0 then 4
    else 5
  }

  /** The classes do not overlap: a size is in exactly one. */
  lemma BucketUnique(b: nat, x: real)
    ensures InBucket(b, x) <==> b == Bucket(x)
  {
  }

  /** `sum(map(lambda x: <class b>, sizes))`: the sizes in class `b`. */
  function CountIn(sizes: seq<real>, b: nat): nat
  {
    if sizes == [] then 0
    else CountIn(sizes[..|sizes| - 1], b) + (if InBucket(b, sizes[|sizes| - 1]) then 1 else 0)
  }

  /** The six class counts add up to the number of sizes. */
  lemma {:induction false} CountsCoverSizes(sizes: seq<real>)
    ensures CountIn(sizes, 0) + CountIn(sizes, 1) + CountIn(sizes, 2)
          + CountIn(sizes, 3) + CountIn(sizes, 4) + CountIn(sizes, 5) == |sizes|
    decreases |sizes|
  {
    if sizes != [] {
      CountsCoverSizes(sizes[..|sizes| - 1]);
      var x := sizes[|sizes| - 1];
      BucketUnique(0, x);
      BucketUnique(1, x);
      BucketUnique(2, x);
      BucketUnique(3, x);
      BucketUnique(4, x);
      BucketUnique(5, x);
    }
  }

  /** A column whose six class counts add up to its last entry. */
  predicate Balanced(column: seq<nat>)
  {
    |column| == 7 && column[0] + column[1] + column[2] + column[3] + column[4] + column[5] == column[6]
  }

  /** The seven entries one image adds to the size rows: the six class
      counts and the number of annotations. */
  function SizeColumn(sizes: seq<real>): (column: seq<nat>)
    ensures Balanced(column)
  {
    CountsCoverSizes(sizes);
    [CountIn(sizes, 0), CountIn(sizes, 1), CountIn(sizes, 2), CountIn(sizes, 3),
     CountIn(sizes, 4), CountIn(sizes, 5), |sizes|]
  }

  /** `scale_mkm / scale_px`; `None` where the division raises. */
  function ScaleFactor(record: ImageRecord): Option<real>
  {
    if record.scalePx == 0.0 then None else Some(record.scaleMkm / record.scalePx)
  }

  /** `[d['diameter'] * scale_factor for d in image['mezo'].values()]`. */
  function Sizes(mezo: seq<(nat, MezoRow)>, factor: real): (r: seq<real>)
    ensures |r| == |mezo|
  {
    seq(|mezo|, i requires 0 <= i < |mezo| => mezo[i].1.diameter * factor)
  }

  /** `rows` holds `columns` row by row: `rows[b][i]` is `columns[i][b]`. */
  predicate Transposed<T(==)>(rows: seq<seq<T>>, columns: seq<seq<T>>, height: nat)
  {
    |rows| == height
    && (forall b :: 0 <= b < height ==> |rows[b]| == |columns|)
    && (forall i :: 0 <= i < |columns| ==> |columns[i]| == height)
    && forall b, i :: 0 <= b < height && 0 <= i < |columns| ==> rows[b][i] == columns[i][b]
  }

  /** `rows[b].append(column[b])` for every row. */
  function AppendColumn<T>(rows: seq<seq<T>>, column: seq<T>): (r: seq<seq<T>>)
    requires |column| == |rows|
    ensures |r| == |rows| && forall b :: 0 <= b < |rows| ==> r[b] == rows[b] + [column[b]]
  {
    seq(|rows|, b requires 0 <= b < |rows| => rows[b] + [column[b]])
  }

  /** Appending a column to every row keeps the rows the transpose of the
      columns. */
  lemma TransposedAppend<T>(rows: seq<seq<T>>, columns: seq<seq<T>>, column: seq<T>, height: nat)
    requires Transposed(rows, columns, height) && |column| == height
    ensures Transposed(AppendColumn(rows, column), columns + [column], height)
  {
    var r := AppendColumn(rows, column);
    var c := columns + [column];
    forall b, i | 0 <= b < height && 0 <= i < |c| ensures r[b][i] == c[i][b] {
      if i < |columns| {
        assert r[b][i] == rows[b][i];
      }
    }
  }

  /** The sizes of an image's annotations in micrometres. */
  function ImageSizes(image: ReportImage): seq<real>
  {
    match ScaleFactor(image.record)
    case None => []
    case Some(f) => Sizes(image.mezo, f)
  }

  /** The size columns of the first `n` images. */
  function SizeColumns(images: seq<ReportImage>, n: nat): (columns: seq<seq<nat>>)
    requires n <= |images|
    ensures |columns| == n && forall i :: 0 <= i < n ==> Balanced(columns[i])
  {
    seq(n, i requires 0 <= i < n => SizeColumn(ImageSizes(images[i])))
  }

  function ResultsColumn(r: Results): (column: seq<real>)
    ensures |column| == 5
  {
    [r.maxSize, r.porosity, r.materialSquare, r.mezoSquare, r.percentage]
  }

  /** Every one of the first `n` images has its results. */
  predicate AllResults(images: seq<ReportImage>, dims: seq<(nat, nat)>, n: nat)
    requires n <= |images| && |dims| == |images|
  {
    forall k :: 0 <= k < n ==> ImageResults(images[k], dims[k].0, dims[k].1).Some?
  }

  /** The results columns of the first `n` images. */
  function ResultsColumns(images: seq<ReportImage>, dims: seq<(nat, nat)>, n: nat): (columns: seq<seq<real>>)
    requires n <= |images| && |dims| == |images| && AllResults(images, dims, n)
    ensures |columns| == n
  {
    seq(n, i requires 0 <= i < n => ResultsColumn(ImageResults(images[i], dims[i].0, dims[i].1).value))
  }

  lemma SizeColumnsStep(images: seq<ReportImage>, i: nat)
    requires i < |images|
    ensures SizeColumns(images, i + 1) == SizeColumns(images, i) + [SizeColumn(ImageSizes(images[i]))]
  {
  }

  lemma ResultsColumnsStep(images: seq<ReportImage>, dims: seq<(nat, nat)>, i: nat)
    requires i < |images| && |dims| == |images| && AllResults(images, dims, i + 1)
    ensures AllResults(images, dims, i)
    ensures ResultsColumns(images, dims, i + 1)
         == ResultsColumns(images, dims, i) + [ResultsColumn(ImageResults(images[i], dims[i].0, dims[i].1).value)]
  {
  }

  /** The image loop of `create_pdf_report`, on the images of the report
      data and the pixel sizes of their files: it fills `size_rows` and
      `results_rows`, or stops with `None` at an image where the source
      divides by zero. */
  method CollectRows(images: seq<ReportImage>, dims: seq<(nat, nat)>)
    returns (tables: Option<(seq<seq<nat>>, seq<seq<real>>)>)
    requires |dims| == |images|
    ensures tables.Some? <==> AllResults(images, dims, |images|)
    ensures tables.Some? ==> Transposed(tables.value.0, SizeColumns(images, |images|), 7)
    ensures tables.Some? ==> Transposed(tables.value.1, ResultsColumns(images, dims, |images|), 5)
  {
    var sizeRows: seq<seq<nat>> := [[], [], [], [], [], [], []];
    var resultsRows: seq<seq<real>> := [[], [], [], [], []];
    var i := 0;
    while i < |images|
      invariant 0 <= i <= |images| && AllResults(images, dims, i)
      invariant Transposed(sizeRows, SizeColumns(images, i), 7)
      invariant Transposed(resultsRows, ResultsColumns(images, dims, i), 5)
    {
      var results := ImageResults(images[i], dims[i].0, dims[i].1);
      if results.None? {
        return None;
      }
      var sizes := SizeColumn(ImageSizes(images[i]));
      var measures := ResultsColumn(results.value);
      SizeColumnsStep(images, i);
      TransposedAppend(sizeRows, SizeColumns(images, i), sizes, 7);
      ResultsColumnsStep(images, dims, i);
      TransposedAppend(resultsRows, ResultsColumns(images, dims, i), measures, 5);
      sizeRows := AppendColumn(sizeRows, sizes);
      resultsRows := AppendColumn(resultsRows, measures);
      i := i + 1;
    }
    tables := Some((sizeRows, resultsRows));
  }

  /** Over balanced columns, the total of the last row is the sum of the
      totals of the six class rows. */
  lemma {:induction false} BalancedRowsTotal(rows: seq<seq<nat>>, columns: seq<seq<nat>>)
    requires Transposed(rows, columns, 7) && forall i :: 0 <= i < |columns| ==> Balanced(columns[i])
    ensures Sum(rows[0]) + Sum(rows[1]) + Sum(rows[2]) + Sum(rows[3]) + Sum(rows[4]) + Sum(rows[5]) == Sum(rows[6])
    decreases |columns|
  {
    if columns != [] {
      var n := |columns| - 1;
      var prefix := seq(7, b requires 0 <= b < 7 => rows[b][..n]);
      assert Transposed(prefix, columns[..n], 7);
      BalancedRowsTotal(prefix, columns[..n]);
      forall b | 0 <= b < 7 ensures Sum(rows[b]) == Sum(prefix[b]) + columns[n][b] {
        assert rows[b][..|rows[b]| - 1] == prefix[b];
      }
    }
  }

  /** In the size table built by the loop, the annotation count of the
      seventh row's total cell is the sum of the six class totals. */
  lemma SizeRowsTotal(images: seq<ReportImage>, rows: seq<seq<nat>>)
    requires Transposed(rows, SizeColumns(images, |images|), 7)
    ensures Sum(rows[0]) + Sum(rows[1]) + Sum(rows[2]) + Sum(rows[3]) + Sum(rows[4]) + Sum(rows[5]) == Sum(rows[6])
  {
    BalancedRowsTotal(rows, SizeColumns(images, |images|));
  }

  /** `f"<td>{value}</td>"` for a count. */
  function CountCell(value: nat): string
  {
    "<td>" + NatToString(value) + "</td>"
  }

  /** The cells of a size row: one per image, then the row's total. */
  function SizeRowCells(row: seq<nat>): (cells: seq<string>)
    ensures |cells| == |row| + 1
  {
    seq(|row|, i requires 0 <= i < |row| => CountCell(row[i])) + [CountCell(Sum(row))]
  }

  /** The number in a count cell reads back as the count. */
  lemma CountCellReads(value: nat)
    ensures var cell := CountCell(value);
      |cell| > 9 && cell[4..|cell| - 5] == NatToString(value) && ParseNat(cell[4..|cell| - 5]) == value
  {
    NatToStringRoundTrip(value);
    var cell := CountCell(value);
    assert cell[4..|cell| - 5] == NatToString(value);
  }

  /** A size row ends with a cell holding the row's total, after one cell
      per image holding that image's count. */
  lemma SizeRowEndsWithTotal(row: seq<nat>, i: nat)
    requires i < |row|
    ensures var cells := SizeRowCells(row);
      var last := cells[|row|];
      && |last| > 9 && ParseNat(last[4..|last| - 5]) == Sum(row)
      && |cells[i]| > 9 && ParseNat(cells[i][4..|cells[i]| - 5]) == row[i]
  {
    CountCellReads(Sum(row));
    CountCellReads(row[i]);
  }

  /** `f"<th>{i + 1}</th>"` for the image at index `i`. */
  function HeaderCell(i: nat): string
  {
    "<th>" + NatToString(i + 1) + "</th>"
  }

  /** The cells of `table_headers`: one per image. */
  function HeaderCells(count: nat): (cells: seq<string>)
    ensures |cells| == count
  {
    seq(count, i requires 0 <= i < count => HeaderCell(i))
  }

  /** The headers number the images 1 to `count`, each number once. */
  lemma HeaderCellsNumbered(count: nat, i: nat, j: nat)
    requires i < count && j < count
    ensures var cells := HeaderCells(count);
      |cells[i]| > 9 && ParseNat(cells[i][4..|cells[i]| - 5]) == i + 1
      && (cells[i] == cells[j] <==> i == j)
  {
    var cells := HeaderCells(count);
    assert cells[i][4..|cells[i]| - 5] == NatToString(i + 1);
    NatToStringRoundTrip(i + 1);
    if cells[i] == cells[j] {
      assert cells[j][4..|cells[j]| - 5] == NatToString(j + 1);
      NatToStringInjective(i + 1, j + 1);
    }
  }

  // ---------------------------------------------------------------------
  // The analytical results of one image.

  /** `max(sizes, default=0)`. */
  function MaxSize(sizes: seq<real>): (m: real)
    ensures sizes == [] ==> m == 0.0
    ensures sizes != [] ==> m in sizes && forall x :: x in sizes ==> x <= m
  {
    if sizes == [] then 0.0
    else if |sizes| == 1 then sizes[0]
    else
      var rest := MaxSize(sizes[1..]);
      assert forall x :: x in sizes ==> x == sizes[0] || x in sizes[1..];
      if sizes[0] >= rest then sizes[0] else rest
  }

  function RealSum(xs: seq<real>): real
  {
    if xs == [] then 0.0 else RealSum(xs[..|xs| - 1]) + xs[|xs| - 1]
  }

  /** `[d['square'] * scale_factor ** 2 for d in image['mezo'].values()]`. */
  function Squares(mezo: seq<(nat, MezoRow)>, factor: real): (r: seq<real>)
    ensures |r| == |mezo|
  {
    seq(|mezo|, i requires 0 <= i < |mezo| => mezo[i].1.square * (factor * factor))
  }

  /** The results column of one image: maximum size, porosity in percent,
      material area, annotated area and annotated percentage; `None` where
      the source divides by zero (`scale_px == 0` or a zero material area). */
  datatype Results = Results(maxSize: real, porosity: real, materialSquare: real, mezoSquare: real, percentage: real)

  /** `0.000001 * (1 - 0.01 * porosity) * width * height * scale_factor ** 2`,
      the porosity in percent. */
  function MaterialSquare(porosity: real, width: nat, height: nat, f: real): real
  {
    0.000001 * (1.0 - 0.01 * porosity) * (width as real) * (height as real) * (f * f)
  }

  /** `0.000001 * sum(mezo_square_list)`. */
  function MezoSquare(mezo: seq<(nat, MezoRow)>, f: real): real
  {
    0.000001 * RealSum(Squares(mezo, f))
  }

  function ImageResults(image: ReportImage, width: nat, height: nat): Option<Results>
  {
    match ScaleFactor(image.record)
    case None => None
    case Some(f) =>
      var porosity := image.record.porosity * 100.0;
      var material := MaterialSquare(porosity, width, height, f);
      var mezo := MezoSquare(image.mezo, f);
      if material == 0.0 then None
      else Some(Results(MaxSize(Sizes(image.mezo, f)), porosity, material, mezo, 100.0 * mezo / material))
  }

  lemma {:induction false} RealSumScaled(mezo: seq<(nat, MezoRow)>, f: real)
    ensures RealSum(Squares(mezo, f)) == (f * f) * RealSum(Squares(mezo, 1.0))
    decreases |mezo|
  {
    if mezo != [] {
      var n := |mezo| - 1;
      SquaresPrefix(mezo, f, n);
      SquaresPrefix(mezo, 1.0, n);
      RealSumScaled(mezo[..n], f);
      assert Squares(mezo, 1.0)[n] == mezo[n].1.square;
    }
  }

  lemma SquaresPrefix(mezo: seq<(nat, MezoRow)>, f: real, n: nat)
    requires n <= |mezo|
    ensures Squares(mezo, f)[..n] == Squares(mezo[..n], f)
  {
    forall i | 0 <= i < n ensures Squares(mezo, f)[..n][i] == Squares(mezo[..n], f)[i] {
    }
  }

  /** A quotient keeps its value when a common non-zero factor of its
      numerator and denominator is cancelled. */
  lemma CancelFactor(x: real, y: real, a: real, b: real, k: real)
    requires x == a * k && y == b * k && b != 0.0 && k != 0.0
    ensures y != 0.0 && x / y == a / b
  {
  }

  lemma MaterialFactors(p: real, width: nat, height: nat, f: real)
    ensures MaterialSquare(p * 100.0, width, height, f)
         == ((1.0 - p) * (width as real) * (height as real)) * (0.000001 * (f * f))
  {
    assert 0.01 * (p * 100.0) == p;
  }

  lemma MezoFactors(mezo: seq<(nat, MezoRow)>, f: real)
    ensures 100.0 * MezoSquare(mezo, f) == (100.0 * RealSum(Squares(mezo, 1.0))) * (0.000001 * (f * f))
  {
    RealSumScaled(mezo, f);
  }

  /** The constant factor and the squared scale cancel out of the
      percentage. */
  lemma PercentageAlgebra(mezo: seq<(nat, MezoRow)>, p: real, width: nat, height: nat, f: real)
    requires f != 0.0 && MaterialSquare(p * 100.0, width, height, f) != 0.0
    ensures (1.0 - p) * (width as real) * (height as real) != 0.0
    ensures 100.0 * MezoSquare(mezo, f) / MaterialSquare(p * 100.0, width, height, f)
         == 100.0 * RealSum(Squares(mezo, 1.0)) / ((1.0 - p) * (width as real) * (height as real))
  {
    MaterialFactors(p, width, height, f);
    MezoFactors(mezo, f);
    var b := (1.0 - p) * (width as real) * (height as real);
    var c := 0.000001 * (f * f);
    assert c != 0.0;
    assert b != 0.0;
    CancelFactor(100.0 * MezoSquare(mezo, f), MaterialSquare(p * 100.0, width, height, f),
                 100.0 * RealSum(Squares(mezo, 1.0)), b, c);
  }

  /** A non-zero material area needs a non-zero scale factor. */
  lemma MaterialNeedsScale(p: real, width: nat, height: nat, f: real)
    requires MaterialSquare(p, width, height, f) != 0.0
    ensures f != 0.0
  {
  }

  /** What `ImageResults` computes for an image it accepts. */
  lemma ImageResultsValue(image: ReportImage, width: nat, height: nat)
    requires ImageResults(image, width, height).Some?
    ensures ScaleFactor(image.record).Some?
    ensures MaterialSquare(image.record.porosity * 100.0, width, height, ScaleFactor(image.record).value) != 0.0
    ensures ImageResults(image, width, height).value.percentage
         == 100.0 * MezoSquare(image.mezo, ScaleFactor(image.record).value)
            / MaterialSquare(image.record.porosity * 100.0, width, height, ScaleFactor(image.record).value)
  {
  }

  /** An image gets a results column exactly when neither division of the
      report divides by zero: the scale in pixels is non-zero (the scale
      factor), and the scale in micrometres, the pore-free fraction and both
      sides of the frame are non-zero (the material area). */
  lemma ImageAccepted(image: ReportImage, width: nat, height: nat)
    ensures ImageResults(image, width, height).Some?
        <==> image.record.scalePx != 0.0 && image.record.scaleMkm != 0.0 && image.record.porosity != 1.0
             && width > 0 && height > 0
  {
    var r := image.record;
    if r.scalePx != 0.0 {
      var f := r.scaleMkm / r.scalePx;
      assert f * r.scalePx == r.scaleMkm;
      assert f == 0.0 <==> r.scaleMkm == 0.0;
      MaterialFactors(r.porosity, width, height, f);
      ProductNonZero((1.0 - r.porosity) * (width as real), height as real);
      ProductNonZero(1.0 - r.porosity, width as real);
      ProductNonZero(0.000001, f * f);
      ProductNonZero(f, f);
      ProductNonZero((1.0 - r.porosity) * (width as real) * (height as real), 0.000001 * (f * f));
      var m := MaterialSquare(r.porosity * 100.0, width, height, f);
      var a := (1.0 - r.porosity) * (width as real) * (height as real);
      var c := 0.000001 * (f * f);
      assert m == a * c;
      assert c != 0.0 <==> r.scaleMkm != 0.0;
      assert a != 0.0 <==> r.porosity != 1.0 && width > 0 && height > 0;
      assert m != 0.0 <==> r.scaleMkm != 0.0 && r.porosity != 1.0 && width > 0 && height > 0;
      assert ScaleFactor(r) == Some(f);
      assert ImageResults(image, width, height).Some? <==> m != 0.0;
    }
  }

  lemma ProductNonZero(a: real, b: real)
    ensures a * b != 0.0 <==> a != 0.0 && b != 0.0
  {
  }

  /** The annotated percentage does not depend on the image's scale: it is
      the annotated area in pixels over the pore-free part of the frame. */
  lemma PercentageScaleFree(image: ReportImage, width: nat, height: nat)
    requires ImageResults(image, width, height).Some?
    ensures ImageResults(image, width, height).value.percentage
         == 100.0 * RealSum(Squares(image.mezo, 1.0))
            / ((1.0 - image.record.porosity) * (width as real) * (height as real))
  {
    ImageResultsValue(image, width, height);
    var f := ScaleFactor(image.record).value;
    MaterialNeedsScale(image.record.porosity * 100.0, width, height, f);
    PercentageAlgebra(image.mezo, image.record.porosity, width, height, f);
  }
}
