/** `extractSections` and `createSection` (route.ts): the main content is
    cut into lines, a line that looks like a heading opens a new section, the
    other lines are gathered under the open one, every finished section is
    classified by keywords in its title and capped in length, and at most
    eight sections are kept. */
module Sections {
  import opened Text
  import opened Locate

  datatype SectionType = Overview | Quickstart | KeyConcepts | ApiReference | Examples | Troubleshooting

  /** The `Section` record. */
  datatype Section = Section(title: string, content: string, kind: SectionType)

  const MaxSections: nat := 8
  const MaxContent: nat := 1500
  const MaxFallback: nat := 2000

  // ---------------------------------------------------------------------
  // `createSection`

  /** The keyword groups, in the order they are tested. */
  const Groups: seq<(SectionType, seq<string>)> := [
    (Quickstart, ["quick", "start", "getting started"]),
    (KeyConcepts, ["concept", "fundamentals", "basics"]),
    (ApiReference, ["api", "reference", "endpoint"]),
    (Examples, ["example", "tutorial", "guide"]),
    (Troubleshooting, ["trouble", "error", "debug", "faq"])
  ]

  /** The type of the first group, from `from` on, with a word in `lower`. */
  function KindFrom(lower: string, from: nat): (t: SectionType)
    decreases |Groups| - from
    ensures t == Overview <==> forall k :: from <= k < |Groups| ==> !ContainsAny(lower, Groups[k].1)
    ensures forall k :: from <= k < |Groups| ==>
      (t == Groups[k].0 <==> ContainsAny(lower, Groups[k].1)
                              && forall j :: from <= j < k ==> !ContainsAny(lower, Groups[j].1))
  {
    if from >= |Groups| then Overview
    else if ContainsAny(lower, Groups[from].1) then Groups[from].0
    else KindFrom(lower, from + 1)
  }

  /** The type `createSection` assigns: the first keyword group with a
      word in the lower-cased title, overview when there is none. */
  function Classify(title: string): SectionType {
    KindFrom(ToLower(title), 0)
  }

  /** `createSection`. */
  function CreateSection(title: string, content: string): (r: Section)
    ensures r.title == title && r.kind == Classify(title)
    ensures |content| <= MaxContent ==> r.content == content
    ensures |content| > MaxContent <==> |r.content| == MaxContent + 3
    ensures |content| > MaxContent ==> r.content == content[..MaxContent] + "..."
  {
    Section(title, Truncate(content, MaxContent), Classify(title))
  }

  /** A title naming both a quick start and an API is a quick start. */
  lemma ApiQuickstartIsQuickstart()
    ensures Classify("API Quickstart") == Quickstart
  {
    var lower := ToLower("API Quickstart");
    assert lower == "api quickstart";
    assert "quick" <= lower[4..];
    ContainsAt(lower, "quick", 4);
    assert Groups[0].1[0] == "quick";
  }

  // ---------------------------------------------------------------------
  // Heading detection (route.ts:166-172)

  /** `/^[A-Z][a-z]+(\s+[A-Z][a-z]+)*$/`: words of a capital and at least one
      small letter, separated by whitespace. Each run is followed by a
      character it cannot take, so the expression never backtracks. */
  predicate TitleCase(t: string) {
    WordsFrom(t, 0)
  }

  /** The rest of `t` from `i` is a capitalised word, then either the end or
      whitespace and again such words. */
  predicate WordsFrom(t: string, i: nat)
    decreases |t| - i
  {
    i + 1 < |t| && IsUpper(t[i]) && IsLower(t[i + 1])
    && var e := i + 1 + LeadingWhile(t[i + 1..], IsLower);
       (e == |t| || (LeadingWhile(t[e..], IsSpace) >= 1 && WordsFrom(t, e + LeadingWhile(t[e..], IsSpace))))
  }

  /** `/^#{1,3}\s/`: one to three `#`, then whitespace. With four or more
      `#` the character after any three is a `#`, so there is no match. */
  predicate MarkdownHeading(t: string) {
    var n := LeadingWhile(t, IsHash);
    1 <= n <= 3 && n < |t| && IsSpace(t[n])
  }

  /** The `isHeading` test on a trimmed line. */
  predicate IsHeading(t: string) {
    |t| < 100 && !(|t| > 0 && t[|t| - 1] == '.')
    && (t == ToUpper(t) || TitleCase(t) || MarkdownHeading(t))
  }

  /** A line that opens a new section. */
  predicate StartsSection(t: string) {
    IsHeading(t) && |t| > 2
  }

  /** `replace(/^#+\s*\/, "")`: the leading `#` and the whitespace after them.
      What goes is the whole `#` run and then only whitespace, and what is
      left of a line that had `#` does not start with whitespace. */
  function StripHashes(t: string): (r: string)
    ensures IsSuffix(r, t)
    ensures r == t <==> LeadingWhile(t, IsHash) == 0
    ensures |t| - |r| >= LeadingWhile(t, IsHash)
    ensures forall i :: LeadingWhile(t, IsHash) <= i < |t| - |r| ==> IsSpace(t[i])
    ensures LeadingWhile(t, IsHash) > 0 && r != [] ==> !IsSpace(r[0])
  {
    var n := LeadingWhile(t, IsHash);
    if n == 0 then t
    else
      var sp := LeadingWhile(t[n..], IsSpace);
      assert forall i :: n <= i < n + sp ==> t[i] == t[n..][i - n];
      t[n + sp..]
  }

  // ---------------------------------------------------------------------
  // The scan over the lines

  /** The `currentSection` accumulator: a title and the lines gathered. */
  datatype Draft = Draft(title: string, lines: seq<string>)

  /** The finished sections, in order, and the open one if any. */
  datatype ScanState = ScanState(done: seq<Draft>, current: Option<Draft>)

  /** The open section is finished only if it gathered a line. */
  function Flush(done: seq<Draft>, current: Option<Draft>): seq<Draft> {
    if current.Some? && |current.value.lines| > 0 then done + [current.value] else done
  }

  /** One iteration of the line loop. */
  function Step(st: ScanState, line: string): ScanState {
    var t := Trim(line);
    if t == [] then st
    else if StartsSection(t) then ScanState(Flush(st.done, st.current), Some(Draft(StripHashes(t), [])))
    else
      match st.current
      case Some(d) => ScanState(st.done, Some(Draft(d.title, d.lines + [t])))
      case None => ScanState(st.done, Some(Draft("Overview", [t])))
  }

  function ScanLines(lines: seq<string>): ScanState
    decreases |lines|
  {
    if lines == [] then ScanState([], None)
    else Step(ScanLines(lines[..|lines| - 1]), lines[|lines| - 1])
  }

  /** The sections the scan of `content` finishes, before classification. */
  function Drafts(content: string): seq<Draft> {
    var st := ScanLines(Split(content, {'\n'}));
    Flush(st.done, st.current)
  }

  function ToSection(d: Draft): Section {
    CreateSection(d.title, Join(d.lines, "\n"))
  }

  function ToSections(ds: seq<Draft>): (r: seq<Section>)
    ensures |r| == |ds|
    ensures forall k :: 0 <= k < |ds| ==> r[k] == ToSection(ds[k])
  {
    seq(|ds|, k requires 0 <= k < |ds| => ToSection(ds[k]))
  }

  /** The section added when the scan finishes none. */
  function Fallback(content: string): Section {
    Section("Overview", Truncate(content, MaxFallback), Overview)
  }

  /** What `extractSections` returns for the main content `content`. */
  function SectionList(content: string): (r: seq<Section>)
    ensures 1 <= |r| <= MaxSections
    ensures Drafts(content) == [] ==> r == [Fallback(content)]
    ensures Drafts(content) != [] ==> r == Take(ToSections(Drafts(content)), MaxSections)
  {
    var found := ToSections(Drafts(content));
    Take(if found == [] then [Fallback(content)] else found, MaxSections)
  }

  /** `extractSections`: the main content, the line loop with its
      accumulator, the final flush, the fallback and the cut to eight. */
  method ExtractSections(html: string) returns (sections: seq<Section>)
    ensures sections == SectionList(MainContent(html))
    ensures 1 <= |sections| <= MaxSections
  {
    var content := ExtractMainContent(html);
    var lines := Split(content, {'\n'});
    sections := GroupLines(lines);
    SectionListOf(content, sections);
    if |sections| == 0 {
      sections := sections + [Fallback(content)];
    }
    sections := Take(sections, MaxSections);
  }

  /** The line loop of route.ts:161-182 and the flush after it: the
      sections finished, in order. */
  method GroupLines(lines: seq<string>) returns (sections: seq<Section>)
    ensures sections == ToSections(Flush(ScanLines(lines).done, ScanLines(lines).current))
  {
    sections := [];
    var current: Option<Draft> := None;
    ghost var st := ScanState([], None);
    for i := 0 to |lines|
      invariant st == ScanLines(lines[..i])
      invariant sections == ToSections(st.done) && current == st.current
    {
      assert lines[..i + 1][..i] == lines[..i];
      ToSectionsFlush(st.done, st.current);
      st := Step(st, lines[i]);
      var trimmed := Trim(lines[i]);
      if trimmed == [] {
        continue;
      }
      var isHeading := IsHeading(trimmed);
      if isHeading && |trimmed| > 2 {
        if current.Some? && |current.value.lines| > 0 {
          sections := sections + [CreateSection(current.value.title, Join(current.value.lines, "\n"))];
        }
        current := Some(Draft(StripHashes(trimmed), []));
      } else if current.Some? {
        current := Some(Draft(current.value.title, current.value.lines + [trimmed]));
      } else {
        current := Some(Draft("Overview", [trimmed]));
      }
    }
    assert lines[..|lines|] == lines;
    ToSectionsFlush(st.done, st.current);
    if current.Some? && |current.value.lines| > 0 {
      sections := sections + [CreateSection(current.value.title, Join(current.value.lines, "\n"))];
    }
  }

  lemma SectionListOf(content: string, found: seq<Section>)
    requires found == ToSections(Drafts(content))
    ensures SectionList(content) == Take(if |found| == 0 then [] + [Fallback(content)] else found, MaxSections)
  {
  }

  lemma ToSectionsFlush(done: seq<Draft>, current: Option<Draft>)
    ensures ToSections(Flush(done, current))
         == ToSections(done) + (if current.Some? && |current.value.lines| > 0 then [ToSection(current.value)] else [])
  {
  }

  // ---------------------------------------------------------------------
  // Properties of the heading tests

  /** A single capitalised word is title case. */
  lemma SingleWordIsTitleCase(w: string)
    requires |w| >= 2 && IsUpper(w[0])
    requires forall i :: 1 <= i < |w| ==> IsLower(w[i])
    ensures TitleCase(w)
  {
    assert LeadingWhile(w[1..], IsLower) == |w| - 1 by {
      LowerRunAll(w[1..]);
    }
  }

  lemma {:induction false} LowerRunAll(s: string)
    requires forall i :: 0 <= i < |s| ==> IsLower(s[i])
    decreases |s|
    ensures LeadingWhile(s, IsLower) == |s|
  {
    if s != [] {
      LowerRunAll(s[1..]);
    }
  }

  /** Title-case text starts with a capital and ends with a small letter,
      and so is already trimmed. */
  lemma TitleCaseEnds(t: string)
    requires TitleCase(t)
    ensures IsUpper(t[0]) && IsLower(t[|t| - 1])
  {
    WordsEnd(t, 0);
  }

  lemma {:induction false} WordsEnd(t: string, i: nat)
    requires WordsFrom(t, i)
    decreases |t| - i
    ensures IsLower(t[|t| - 1])
  {
    var e := i + 1 + LeadingWhile(t[i + 1..], IsLower);
    if e < |t| {
      WordsEnd(t, e + LeadingWhile(t[e..], IsSpace));
    } else {
      assert t[|t| - 1] == t[i + 1..][e - i - 2];
    }
  }

  /** A line with no small letters — digits, symbols or capitals only —
      equals its upper-case form and so opens a section when it is longer
      than two characters, shorter than 100 and does not end with `.`. */
  lemma NoLowerStartsSection(t: string)
    requires 2 < |t| < 100 && t[|t| - 1] != '.'
    requires forall i :: 0 <= i < |t| ==> !IsLower(t[i])
    ensures StartsSection(t)
  {
    UpperFixedIffNoLower(t);
  }

  /** A line ending with `.` never opens a section. */
  lemma SentenceIsNotHeading(t: string)
    requires |t| > 0 && t[|t| - 1] == '.'
    ensures !StartsSection(t)
  {
  }

  // ---------------------------------------------------------------------
  // Properties of the scan

  /** Each gathered line is a trimmed, non-empty line of the text. */
  predicate GoodLines(lines: seq<string>, bad: set<char>) {
    forall k :: 0 <= k < |lines| ==> lines[k] != [] && IsTrimmed(lines[k]) && Avoids(lines[k], bad)
  }

  /** Every finished section has a line; titles and lines avoid `bad`. */
  predicate GoodState(st: ScanState, bad: set<char>) {
    (forall k :: 0 <= k < |st.done| ==>
       |st.done[k].lines| >= 1 && GoodLines(st.done[k].lines, bad) && Avoids(st.done[k].title, bad))
    && (st.current.Some? ==> GoodLines(st.current.value.lines, bad) && Avoids(st.current.value.title, bad))
  }

  /** All lines of the drafts, in order. */
  function Flat(ds: seq<Draft>): seq<string>
    decreases |ds|
  {
    if ds == [] then [] else Flat(ds[..|ds| - 1]) + ds[|ds| - 1].lines
  }

  function OpenLines(current: Option<Draft>): seq<string> {
    if current.Some? then current.value.lines else []
  }

  /** The trimmed lines of `lines` that are neither blank nor headings. */
  function BodyLines(lines: seq<string>): seq<string>
    decreases |lines|
  {
    if lines == [] then []
    else
      var t := Trim(lines[|lines| - 1]);
      BodyLines(lines[..|lines| - 1]) + (if t != [] && !StartsSection(t) then [t] else [])
  }

  lemma FlattenSnoc(ds: seq<Draft>, d: Draft)
    ensures Flat(ds + [d]) == Flat(ds) + d.lines
  {
    assert (ds + [d])[..|ds|] == ds;
  }

  lemma FlushKeepsLines(done: seq<Draft>, current: Option<Draft>)
    ensures Flat(Flush(done, current)) == Flat(done) + OpenLines(current)
  {
    if current.Some? && |current.value.lines| > 0 {
      FlattenSnoc(done, current.value);
    }
  }

  lemma StripHashesAvoids(t: string, bad: set<char>)
    requires Avoids(t, bad)
    ensures Avoids(StripHashes(t), bad)
  {
    SuffixAvoids(t, StripHashes(t), bad);
  }

  lemma StepGood(st: ScanState, line: string, bad: set<char>)
    requires GoodState(st, bad) && Avoids(line, bad) && Avoids("Overview", bad)
    ensures GoodState(Step(st, line), bad)
  {
    var t := Trim(line);
    if t != [] {
      TrimAvoids(line, bad);
      if StartsSection(t) {
        HeadingGood(st, t, bad);
      } else {
        BodyGood(st, t, bad);
      }
    }
  }

  lemma HeadingGood(st: ScanState, t: string, bad: set<char>)
    requires GoodState(st, bad) && Avoids(t, bad)
    ensures GoodState(ScanState(Flush(st.done, st.current), Some(Draft(StripHashes(t), []))), bad)
  {
    StripHashesAvoids(t, bad);
    FlushGood(st, bad);
  }

  lemma BodyGood(st: ScanState, t: string, bad: set<char>)
    requires GoodState(st, bad) && t != [] && IsTrimmed(t) && Avoids(t, bad) && Avoids("Overview", bad)
    ensures st.current.Some? ==> GoodState(ScanState(st.done, Some(Draft(st.current.value.title, st.current.value.lines + [t]))), bad)
    ensures st.current.None? ==> GoodState(ScanState(st.done, Some(Draft("Overview", [t]))), bad)
  {
    if st.current.Some? {
      GoodLinesSnoc(st.current.value.lines, t, bad);
    } else {
      GoodLinesSnoc([], t, bad);
    }
  }

  lemma FlushGood(st: ScanState, bad: set<char>)
    requires GoodState(st, bad)
    ensures GoodState(ScanState(Flush(st.done, st.current), None), bad)
  {
  }

  lemma GoodLinesSnoc(lines: seq<string>, t: string, bad: set<char>)
    requires GoodLines(lines, bad) && t != [] && IsTrimmed(t) && Avoids(t, bad)
    ensures GoodLines(lines + [t], bad)
  {
  }

  /** The scan keeps every body line, in order, and nothing else: a heading
      with no line under it is dropped, never its lines. */
  lemma {:induction false} ScanKeepsBody(lines: seq<string>)
    decreases |lines|
    ensures Flat(ScanLines(lines).done) + OpenLines(ScanLines(lines).current) == BodyLines(lines)
  {
    if lines != [] {
      var prefix, line := lines[..|lines| - 1], lines[|lines| - 1];
      ScanKeepsBody(prefix);
      var st := ScanLines(prefix);
      var t := Trim(line);
      if t != [] && StartsSection(t) {
        FlushKeepsLines(st.done, st.current);
      }
    }
  }

  /** The trimmed lines of `lines` that are not blank, in order. */
  function NonBlank(lines: seq<string>): (ts: seq<string>)
    decreases |lines|
  {
    if lines == [] then []
    else
      var t := Trim(lines[|lines| - 1]);
      NonBlank(lines[..|lines| - 1]) + (if t != [] then [t] else [])
  }

  /** The position of the last line of `ts` that opens a section. */
  function LastHeading(ts: seq<string>): (r: Option<nat>)
    decreases |ts|
    ensures r.Some? ==> r.value < |ts| && StartsSection(ts[r.value])
    ensures r.Some? ==> forall j :: r.value < j < |ts| ==> !StartsSection(ts[j])
    ensures r.None? ==> forall j :: 0 <= j < |ts| ==> !StartsSection(ts[j])
  {
    if ts == [] then None
    else if StartsSection(ts[|ts| - 1]) then Some(|ts| - 1)
    else LastHeading(ts[..|ts| - 1])
  }

  /** The sections of the non-blank lines `ts`, read off the headings: each
      heading opens a section titled by the heading without its `#`, holding
      every line after it up to the next heading; the lines before the first
      heading form an "Overview" section; a heading with no line under it
      gives no section. */
  function Sectioned(ts: seq<string>): seq<Draft>
    decreases |ts|
  {
    match LastHeading(ts)
    case None => if ts == [] then [] else [Draft("Overview", ts)]
    case Some(h) =>
      Sectioned(ts[..h]) + (if h + 1 < |ts| then [Draft(StripHashes(ts[h]), ts[h + 1..])] else [])
  }

  /** The scan state after the non-blank lines `ts`: the sections before the
      last heading are finished, and the last heading's section is open. */
  function OpenScan(ts: seq<string>): ScanState {
    match LastHeading(ts)
    case None => ScanState([], if ts == [] then None else Some(Draft("Overview", ts)))
    case Some(h) => ScanState(Sectioned(ts[..h]), Some(Draft(StripHashes(ts[h]), ts[h + 1..])))
  }

  /** The sections the scan finishes are those read off the headings. */
  lemma DraftsAreSections(content: string)
    ensures Drafts(content) == Sectioned(NonBlank(Split(content, {'\n'})))
  {
    var lines := Split(content, {'\n'});
    ScanIsOpen(lines);
    FlushOpen(NonBlank(lines));
  }

  lemma FlushOpen(ts: seq<string>)
    ensures Flush(OpenScan(ts).done, OpenScan(ts).current) == Sectioned(ts)
  {
  }

  lemma {:induction false} ScanIsOpen(lines: seq<string>)
    decreases |lines|
    ensures ScanLines(lines) == OpenScan(NonBlank(lines))
  {
    if lines != [] {
      var prefix, line := lines[..|lines| - 1], lines[|lines| - 1];
      ScanIsOpen(prefix);
      var ts, t := NonBlank(prefix), Trim(line);
      if t != [] {
        var ts' := ts + [t];
        assert NonBlank(lines) == ts';
        assert ts'[..|ts|] == ts;
        if StartsSection(t) {
          FlushOpen(ts);
          assert LastHeading(ts') == Some(|ts|);
          assert ts'[|ts| + 1..] == [];
        } else {
          OpenAfterBody(ts, t);
          assert Trim(t) == t;
        }
      } else {
        assert NonBlank(lines) == ts;
      }
    }
  }

  /** A body line joins the open section, or opens the "Overview" one. */
  lemma OpenAfterBody(ts: seq<string>, t: string)
    requires t != [] && IsTrimmed(t) && !StartsSection(t)
    ensures OpenScan(ts + [t]) == Step(OpenScan(ts), t)
  {
    LastHeadingSnoc(ts, t);
    StepBody(OpenScan(ts), t);
    match LastHeading(ts)
    case None => OpenOverviewSnoc(ts, t);
    case Some(h) => OpenSectionSnoc(ts, t, h);
  }

  /** A body line is never the last heading. */
  lemma LastHeadingSnoc(ts: seq<string>, t: string)
    requires !StartsSection(t)
    ensures LastHeading(ts + [t]) == LastHeading(ts)
  {
    assert (ts + [t])[..|ts|] == ts;
  }

  lemma OpenOverviewSnoc(ts: seq<string>, t: string)
    requires LastHeading(ts + [t]) == LastHeading(ts) == None
    ensures OpenScan(ts + [t]) == ScanState([], Some(Draft("Overview", ts + [t])))
    ensures OpenScan(ts) == ScanState([], if ts == [] then None else Some(Draft("Overview", ts)))
  {
  }

  lemma OpenSectionSnoc(ts: seq<string>, t: string, h: nat)
    requires LastHeading(ts + [t]) == LastHeading(ts) == Some(h)
    ensures h < |ts|
    ensures OpenScan(ts + [t]) == ScanState(Sectioned(ts[..h]), Some(Draft(StripHashes(ts[h]), ts[h + 1..] + [t])))
    ensures OpenScan(ts) == ScanState(Sectioned(ts[..h]), Some(Draft(StripHashes(ts[h]), ts[h + 1..])))
  {
    SnocSlices(ts, t, h);
  }

  lemma SnocSlices<T>(xs: seq<T>, x: T, h: nat)
    requires h < |xs|
    ensures (xs + [x])[..h] == xs[..h] && (xs + [x])[h] == xs[h]
    ensures (xs + [x])[h + 1..] == xs[h + 1..] + [x]
  {
  }

  /** One iteration on a trimmed body line. */
  lemma StepBody(st: ScanState, t: string)
    requires t != [] && IsTrimmed(t) && !StartsSection(t)
    ensures Step(st, t) == ScanState(st.done, Some(
      if st.current.Some? then Draft(st.current.value.title, st.current.value.lines + [t])
      else Draft("Overview", [t])))
  {
    assert Trim(t) == t;
  }

  /** No gathered line of a section is a heading, and every section has a
      line. */
  lemma {:induction false} SectionedBodies(ts: seq<string>)
    decreases |ts|
    ensures forall k :: 0 <= k < |Sectioned(ts)| ==> |Sectioned(ts)[k].lines| >= 1
    ensures forall k, i :: 0 <= k < |Sectioned(ts)| && 0 <= i < |Sectioned(ts)[k].lines| ==>
      !StartsSection(Sectioned(ts)[k].lines[i])
  {
    match LastHeading(ts)
    case None =>
    case Some(h) =>
      SectionedBodies(ts[..h]);
      var tail := ts[h + 1..];
      assert forall i :: 0 <= i < |tail| ==> tail[i] == ts[h + 1 + i];
  }

  /** Whatever avoids `bad` in the text avoids it in the scan. */
  lemma {:induction false} ScanGood(lines: seq<string>, bad: set<char>)
    requires forall k :: 0 <= k < |lines| ==> Avoids(lines[k], bad)
    requires Avoids("Overview", bad)
    decreases |lines|
    ensures GoodState(ScanLines(lines), bad)
  {
    if lines != [] {
      ScanGood(lines[..|lines| - 1], bad);
      StepGood(ScanLines(lines[..|lines| - 1]), lines[|lines| - 1], bad);
    }
  }

  /** The lines of the finished sections are exactly the body lines of the
      content, and every finished section has at least one. */
  lemma DraftsKeepBody(content: string)
    ensures Flat(Drafts(content)) == BodyLines(Split(content, {'\n'}))
    ensures forall k :: 0 <= k < |Drafts(content)| ==> |Drafts(content)[k].lines| >= 1
  {
    var lines := Split(content, {'\n'});
    var st := ScanLines(lines);
    ScanKeepsBody(lines);
    FlushKeepsLines(st.done, st.current);
    DraftsHaveLines(lines);
  }

  /** Every section the scan finishes has at least one line. */
  lemma DraftsHaveLines(lines: seq<string>)
    ensures var st := ScanLines(lines);
      forall k :: 0 <= k < |Flush(st.done, st.current)| ==> |Flush(st.done, st.current)[k].lines| >= 1
  {
    ScanGood(lines, {});
    FlushHasLines(ScanLines(lines));
  }

  /** Flushing a scan whose finished sections have lines keeps it so. */
  lemma FlushHasLines(st: ScanState)
    requires forall k :: 0 <= k < |st.done| ==> |st.done[k].lines| >= 1
    ensures forall k :: 0 <= k < |Flush(st.done, st.current)| ==> |Flush(st.done, st.current)[k].lines| >= 1
  {
  }

  /** The overview fallback is used exactly when the content has no body
      line: no line that is neither blank nor a heading. */
  lemma FallbackIffNoBody(content: string)
    ensures Drafts(content) == [] <==> BodyLines(Split(content, {'\n'})) == []
  {
    DraftsKeepBody(content);
    var ds := Drafts(content);
    if ds != [] {
      FlatNonEmpty(ds);
    }
  }

  lemma {:induction false} FlatNonEmpty(ds: seq<Draft>)
    requires ds != [] && forall k :: 0 <= k < |ds| ==> |ds[k].lines| >= 1
    decreases |ds|
    ensures Flat(ds) != []
  {
  }

  /** A line gathered under a section is never blank. */
  lemma {:induction false} JoinNonBlank(lines: seq<string>)
    requires |lines| >= 1 && lines[0] != []
    decreases |lines|
    ensures Join(lines, "\n") != [] && Join(lines, "\n")[0] == lines[0][0]
  {
  }

  /** The drafts of a good scan give sections with content, within the cap,
      and keeping the exclusions of the text. */
  lemma DraftSectionsGood(ds: seq<Draft>, bad: set<char>)
    requires '.' !in bad && '\n' !in bad
    requires forall k :: 0 <= k < |ds| ==>
      |ds[k].lines| >= 1 && GoodLines(ds[k].lines, bad) && Avoids(ds[k].title, bad)
    ensures forall k :: 0 <= k < |ds| ==>
      Avoids(ToSection(ds[k]).title, bad) && Avoids(ToSection(ds[k]).content, bad)
      && ToSection(ds[k]).content != [] && |ToSection(ds[k]).content| <= MaxContent + 3
  {
    forall k | 0 <= k < |ds|
      ensures Avoids(ToSection(ds[k]).title, bad) && Avoids(ToSection(ds[k]).content, bad)
      ensures ToSection(ds[k]).content != []
    {
      var j := Join(ds[k].lines, "\n");
      JoinAvoids(ds[k].lines, "\n", bad);
      TruncateAvoids(j, MaxContent, bad);
      JoinNonBlank(ds[k].lines);
    }
  }

  /** Every section from the scan has content; the sections keep the
      content's exclusions, such as having no `<` or `>`. */
  lemma SectionsWellFormed(content: string, bad: set<char>)
    requires Avoids(content, bad) && '.' !in bad && '\n' !in bad && Avoids("Overview", bad)
    ensures forall k :: 0 <= k < |SectionList(content)| ==>
      Avoids(SectionList(content)[k].title, bad) && Avoids(SectionList(content)[k].content, bad)
      && |SectionList(content)[k].content| <= MaxFallback + 3
    ensures Drafts(content) != [] ==>
      forall k :: 0 <= k < |SectionList(content)| ==>
        SectionList(content)[k].content != [] && |SectionList(content)[k].content| <= MaxContent + 3
  {
    ScannedSectionsGood(content, bad);
    TruncateAvoids(content, MaxFallback, bad);
  }

  lemma ScannedSectionsGood(content: string, bad: set<char>)
    requires Avoids(content, bad) && '.' !in bad && '\n' !in bad && Avoids("Overview", bad)
    ensures forall k :: 0 <= k < |Drafts(content)| ==>
      Avoids(ToSection(Drafts(content)[k]).title, bad) && Avoids(ToSection(Drafts(content)[k]).content, bad)
      && ToSection(Drafts(content)[k]).content != [] && |ToSection(Drafts(content)[k]).content| <= MaxContent + 3
  {
    DraftsGood(content, bad);
    DraftSectionsGood(Drafts(content), bad);
  }

  lemma DraftsGood(content: string, bad: set<char>)
    requires Avoids(content, bad) && Avoids("Overview", bad)
    ensures forall k :: 0 <= k < |Drafts(content)| ==>
      |Drafts(content)[k].lines| >= 1 && GoodLines(Drafts(content)[k].lines, bad)
      && Avoids(Drafts(content)[k].title, bad)
  {
    SplitAvoids(content, {'\n'}, bad);
    ScanGood(Split(content, {'\n'}), bad);
  }
}
