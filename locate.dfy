/** `extractTitle` and `extractMainContent` (route.ts): the first match of a
    few fixed regular expressions, each capturing the text between an opening
    tag and the first closing tag after it. Every expression is written as a
    scanner anchored at one position, next to a predicate that states the
    expression's own meaning; `Search` then finds the leftmost position where
    the scanner succeeds, as `String.prototype.match` does without `g`. */
module Locate {
  import opened Text
  import opened Patterns
  import opened Markup

  /** The regions the extraction looks for. */
  datatype Region =
    // /<tag[^>]*>(.*?)<\/tag>/i, or with ([\s\S]*?) when `multiline`
    | Block(tag: string, multiline: bool)
    // /<div[^>]*attr[^"]*needle[^"]*"[^>]*>([\s\S]*?)<\/div>/i, and with the
    // attribute value equal to `needle` instead of holding it when `exact`
    | Div(attr: string, needle: string, exact: bool)

  /** Where the capture group lies in a match. */
  datatype Span = Span(start: nat, end: nat)

  function Closing(tag: string): string { "</" + tag + ">" }

  /** Case-insensitive `includes` of a lower-case word. */
  predicate ContainsCi(s: string, word: string) {
    FindCi(s, word, 0).Some?
  }

  // ---------------------------------------------------------------------
  // `<tag[^>]*>(.*?)<\/tag>`

  /** No character of `s[a..b]` is a line terminator (what `.` requires). */
  predicate SingleLine(s: string, a: nat, b: nat)
    requires a <= b <= |s|
  {
    forall j :: a <= j < b ==> !IsLineTerminator(s[j])
  }

  /** The meaning of the expression anchored at the start of `s`, with the
      capture at `[a, b)`: the opening tag up to its first `>`, then the
      shortest text before a closing tag, on one line unless `multiline`. */
  predicate ElementSpan(s: string, tag: string, multiline: bool, a: nat, b: nat) {
    CiStartsWith(s, "<" + tag) && |tag| + 2 <= a <= b <= |s| && s[a - 1] == '>'
    && (forall j :: |tag| + 1 <= j < a - 1 ==> s[j] != '>')
    && CiStartsWith(s[b..], Closing(tag))
    && (forall j :: a <= j < b ==> !CiStartsWith(s[j..], Closing(tag)))
    && (!multiline ==> SingleLine(s, a, b))
  }

  function ElementAt(s: string, tag: string, multiline: bool): (r: Option<Span>)
    ensures r.Some? ==> ElementSpan(s, tag, multiline, r.value.start, r.value.end)
  {
    if !CiStartsWith(s, "<" + tag) then None
    else
      (match FindChar(s, '>', |tag| + 1)
       case None => None
       case Some(g) =>
         (match FindCi(s, Closing(tag), g + 1)
          case None => None
          case Some(k) =>
            if !multiline && !SingleLine(s, g + 1, k) then None
            else Some(Span(g + 1, k))))
  }

  /** The scanner finds every match of the expression, and it is the only one. */
  lemma ElementAtComplete(s: string, tag: string, multiline: bool, a: nat, b: nat)
    requires ElementSpan(s, tag, multiline, a, b)
    ensures ElementAt(s, tag, multiline) == Some(Span(a, b))
  {
    var g := FindChar(s, '>', |tag| + 1);
    assert g == Some(a - 1);
    var k := FindCi(s, Closing(tag), a);
    assert k == Some(b);
  }

  // ---------------------------------------------------------------------
  // `<div[^>]*attr[^"]*needle[^"]*"[^>]*>([\s\S]*?)<\/div>`

  /** The attribute value satisfies the expression. */
  predicate ValueMatches(value: string, needle: string, exact: bool) {
    if exact then |value| == |needle| && ToLower(value) == needle
    else ContainsCi(value, needle)
  }

  /** The rest of the expression once the attribute is taken to start at
      `c`: its value up to the first `"`, the tag up to the first `>` after
      that, then the shortest text before `</div>`. */
  function AttrAt(s: string, attr: string, needle: string, exact: bool, c: nat): (r: Option<Span>)
    requires c <= |s|
    ensures r.Some? ==> c + |attr| < r.value.start <= r.value.end <= |s|
  {
    if !CiStartsWith(s[c..], attr) then None
    else
      (match FindChar(s, '"', c + |attr|)
       case None => None
       case Some(q) =>
         if !ValueMatches(s[c + |attr|..q], needle, exact) then None
         else
           (match FindChar(s, '>', q + 1)
            case None => None
            case Some(g) =>
              (match FindCi(s, Closing("div"), g + 1)
               case None => None
               case Some(k) => Some(Span(g + 1, k)))))
  }

  /** The attribute can start at `c` and let the rest of the expression match. */
  predicate AttrFits(s: string, attr: string, needle: string, exact: bool, c: nat) {
    c <= |s| && AttrAt(s, attr, needle, exact, c).Some?
  }

  function Fits(s: string, attr: string, needle: string, exact: bool): nat -> bool {
    (c: nat) => AttrFits(s, attr, needle, exact, c)
  }

  /** The expression anchored at the start of `s`. The greedy `[^>]*` after
      `<div` tries the attribute at the last position before the tag's first
      `>` first, then moves left one character at a time. */
  function DivAt(s: string, attr: string, needle: string, exact: bool): (r: Option<Span>)
    ensures r.Some? ==> CiStartsWith(s, "<div")
  {
    if !CiStartsWith(s, "<div") then None
    else
      (match FindChar(s, '>', 4)
       case None => None
       case Some(g0) =>
         (match Rightmost(Fits(s, attr, needle, exact), 4, g0)
          case None => None
          case Some(c) => AttrAt(s, attr, needle, exact, c)))
  }

  /** The match found is the one whose attribute starts furthest right in the
      opening tag: every attribute start further right, still before the
      tag's first `>`, fails. */
  lemma DivAtIsGreedy(s: string, attr: string, needle: string, exact: bool)
    requires DivAt(s, attr, needle, exact).Some?
    ensures exists c :: 4 <= c <= |s| && Avoids(s[4..c], {'>'})
                        && AttrAt(s, attr, needle, exact, c) == DivAt(s, attr, needle, exact)
                        && forall d :: c < d <= |s| && Avoids(s[4..d], {'>'}) ==> !AttrFits(s, attr, needle, exact, d)
  {
    var g0 := FindChar(s, '>', 4).value;
    var p := Fits(s, attr, needle, exact);
    var c := Rightmost(p, 4, g0).value;
    assert p(c);
    forall d | c < d <= |s| && Avoids(s[4..d], {'>'}) ensures !AttrFits(s, attr, needle, exact, d) {
      forall i | 4 <= i < d ensures s[i] != '>' {
        assert s[4..d][i - 4] == s[i];
      }
      assert !p(d);
    }
  }

  // ---------------------------------------------------------------------
  // `String.prototype.match`

  function CaptureAt(s: string, r: Region): (sp: Option<Span>)
    ensures sp.Some? ==> sp.value.start <= sp.value.end <= |s|
  {
    match r
    case Block(tag, multiline) => ElementAt(s, tag, multiline)
    case Div(attr, needle, exact) => DivAt(s, attr, needle, exact)
  }

  /** `r` matches at position `i` of `s`. */
  function MatchesAt(s: string, r: Region): nat -> bool {
    (i: nat) => i <= |s| && CaptureAt(s[i..], r).Some?
  }

  /** The leftmost position where `r` matches. */
  function Search(s: string, r: Region): (i: Option<nat>)
    ensures i.Some? ==> i.value <= |s| && CaptureAt(s[i.value..], r).Some?
    ensures i.Some? ==> forall j :: 0 <= j < i.value ==> CaptureAt(s[j..], r).None?
    ensures i.None? ==> forall j :: 0 <= j <= |s| ==> CaptureAt(s[j..], r).None?
  {
    var i := Leftmost(MatchesAt(s, r), 0, |s|);
    assert forall j :: 0 <= j <= |s| ==> (MatchesAt(s, r)(j) <==> CaptureAt(s[j..], r).Some?);
    i
  }

  /** `s.match(r)?.[1]`: the capture of the leftmost match. */
  function Capture(s: string, r: Region): Option<string> {
    match Search(s, r)
    case None => None
    case Some(i) =>
      var sp := CaptureAt(s[i..], r).value;
      Some(s[i..][sp.start..sp.end])
  }

  // ---------------------------------------------------------------------
  // `extractTitle`

  const TitleTag: Region := Block("title", false)
  const HeadingTag: Region := Block("h1", false)
  const DefaultTitle: string := "Documentation"

  /** What `extractTitle` returns: the text of the first `<title>`, else of
      the first `<h1>`, else a fixed word. */
  function Title(html: string): (t: string)
    ensures NoAngle(t) && IsTrimmed(t)
    ensures Capture(html, TitleTag).Some? ==> t == PlainText(Capture(html, TitleTag).value)
    ensures Capture(html, TitleTag).None? && Capture(html, HeadingTag).Some?
            ==> t == PlainText(Capture(html, HeadingTag).value)
    ensures Capture(html, TitleTag).None? && Capture(html, HeadingTag).None? ==> t == DefaultTitle
  {
    match Capture(html, TitleTag)
    case Some(c) => PlainTextIsClean(c); Trim(PlainText(c))
    case None =>
      match Capture(html, HeadingTag)
      case Some(c) => PlainTextIsClean(c); Trim(PlainText(c))
      case None => DefaultTitle
  }

  /** A page with no `<` has neither a title nor a heading element. */
  lemma PlainPageTitle(html: string)
    requires Avoids(html, {'<'})
    ensures Title(html) == DefaultTitle
  {
    NoRegionWithoutAngle(html, TitleTag);
    NoRegionWithoutAngle(html, HeadingTag);
  }

  // ---------------------------------------------------------------------
  // `extractMainContent`

  /** The candidates in the order they are tried. */
  const MainPatterns: seq<Region> := [
    Block("main", true),
    Block("article", true),
    Div("class=\"", "content", false),
    Div("class=\"", "markdown", false),
    Div("id=\"", "content", true)
  ]

  const BodyTag: Region := Block("body", true)

  /** Pattern `k` of `patterns` matches somewhere in `html`. */
  function Found(html: string, patterns: seq<Region>): nat -> bool {
    (k: nat) => k < |patterns| && Capture(html, patterns[k]).Some?
  }

  /** The index of the first of `patterns` that matches anywhere in `html`. */
  function FirstMatching(html: string, patterns: seq<Region>): (k: Option<nat>)
    ensures k.Some? ==> k.value < |patterns| && Capture(html, patterns[k.value]).Some?
    ensures k.Some? ==> forall j :: 0 <= j < k.value ==> Capture(html, patterns[j]).None?
    ensures k.None? ==> forall j :: 0 <= j < |patterns| ==> Capture(html, patterns[j]).None?
  {
    var k := Leftmost(Found(html, patterns), 0, |patterns|);
    assert forall j :: 0 <= j < |patterns| ==> (Found(html, patterns)(j) <==> Capture(html, patterns[j]).Some?);
    k
  }

  /** A match after misses only is the first. */
  lemma FirstMatchingAt(html: string, patterns: seq<Region>, i: nat)
    requires i < |patterns| && Capture(html, patterns[i]).Some?
    requires forall j :: 0 <= j < i ==> Capture(html, patterns[j]).None?
    ensures FirstMatching(html, patterns) == Some(i)
  {
    var k := FirstMatching(html, patterns);
    assert k.Some? && k.value <= i;
  }

  /** The markup `extractMainContent` converts: the first candidate region,
      else the body, else the whole page. */
  function MainRegion(html: string): string {
    match FirstMatching(html, MainPatterns)
    case Some(k) => Capture(html, MainPatterns[k]).value
    case None =>
      match Capture(html, BodyTag)
      case Some(t) => t
      case None => html
  }

  /** What `extractMainContent` returns. */
  function MainContent(html: string): string {
    PlainText(MainRegion(html))
  }

  /** `extractMainContent`: the candidates are tried in order and the first
      that matches is converted; then the body; then the whole page. */
  method ExtractMainContent(html: string) returns (content: string)
    ensures content == MainContent(html)
    ensures NoAngle(content) && NoTripleNewline(content) && IsTrimmed(content)
  {
    var region := FindMainRegion(html);
    content := HtmlToText(region);
  }

  /** The candidate loop and its two fallbacks, each branch of which hands
      its markup to `htmlToText`. */
  method FindMainRegion(html: string) returns (region: string)
    ensures region == MainRegion(html)
  {
    var m := FirstCapture(html, MainPatterns);
    if m.Some? {
      return m.value;
    }
    var body := Capture(html, BodyTag);
    if body.Some? {
      return body.value;
    }
    region := html;
  }

  /** The loop over the candidates: the capture of the first that matches. */
  method FirstCapture(html: string, patterns: seq<Region>) returns (m: Option<string>)
    ensures m.Some? <==> FirstMatching(html, patterns).Some?
    ensures m.Some? ==> m == Capture(html, patterns[FirstMatching(html, patterns).value])
  {
    for i := 0 to |patterns|
      invariant forall j :: 0 <= j < i ==> Capture(html, patterns[j]).None?
    {
      m := Capture(html, patterns[i]);
      if m.Some? {
        FirstMatchingAt(html, patterns, i);
        return;
      }
    }
    m := None;
  }

  // ---------------------------------------------------------------------
  // Properties

  lemma RegionNeedsAngle(s: string, r: Region)
    requires s != [] && s[0] != '<'
    ensures CaptureAt(s, r).None?
  {
    match r
    case Block(tag, _) => CiStartsWithHead(s, "<" + tag);
    case Div(_, _, _) => CiStartsWithHead(s, "<div");
  }

  /** No region is found in text without `<`. */
  lemma NoRegionWithoutAngle(s: string, r: Region)
    requires Avoids(s, {'<'})
    ensures Capture(s, r).None?
  {
    forall j | 0 <= j <= |s| ensures CaptureAt(s[j..], r).None? {
      if j < |s| {
        RegionNeedsAngle(s[j..], r);
      }
    }
  }

  /** A page with no `<` is its own main content, with only `&`-references
      decoded and whitespace tidied. */
  lemma PlainPageContent(html: string)
    requires Avoids(html, {'<'})
    ensures MainRegion(html) == html
  {
    forall k | 0 <= k < |MainPatterns| ensures Capture(html, MainPatterns[k]).None? {
      NoRegionWithoutAngle(html, MainPatterns[k]);
    }
    NoRegionWithoutAngle(html, BodyTag);
  }

  /** A page with no markup characters at all comes out with only its
      whitespace tidied. */
  lemma PlainPageText(html: string)
    requires Avoids(html, {'<', '>', '&'})
    ensures MainContent(html) == Tidy(html)
  {
    PlainPageContent(html);
    PlainTextOfText(html);
  }
}
