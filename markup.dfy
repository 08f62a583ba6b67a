/** `htmlToText` and `escapeHtmlCharacters` (route.ts): markup to plain text
    in stages — a bounded loop that removes script and style payloads, block
    boundaries turned into newlines, every other tag removed, references
    decoded, surviving angle brackets neutralised, and whitespace tidied. */
module Markup {
  import opened Text
  import opened Patterns
  import opened Entities

  /** The bound on the removal loop. */
  const MaxIterations: nat := 100

  /** What one pass of the removal loop removes, in order: whole script and
      style blocks, then orphaned opening tags, then orphaned closing tags. */
  const RemovalPatterns: seq<Pattern> := [
    Element("script"), Element("style"),
    OpenTag("script"), OpenTag("style"),
    CloseTag("script"), CloseTag("style")
  ]

  /** Every match of each of `patterns`, first pattern first, removed. */
  function RemoveAll(s: string, patterns: seq<Pattern>): string
    decreases |patterns|
  {
    if patterns == [] then s
    else ReplaceAll(RemoveAll(s, patterns[..|patterns| - 1]), patterns[|patterns| - 1], "")
  }

  /** One pass of the removal loop. */
  function RemovalPass(s: string): string {
    RemoveAll(s, RemovalPatterns)
  }

  /** At most `passes` applications of `step`, stopping at the first one
      that changes nothing. */
  function Settle(step: string -> string, s: string, passes: nat): string
    decreases passes
  {
    if passes == 0 then s
    else
      var t := step(s);
      if t == s then s else Settle(step, t, passes - 1)
  }

  /** The removal loop: at most `passes` removal passes, stopping at the
      first pass that changes nothing. */
  function RemoveScripts(s: string, passes: nat): string {
    Settle(RemovalPass, s, passes)
  }

  /** Block boundaries become line breaks. */
  function BlockBreaks(s: string): string {
    var brs := ReplaceAll(s, LineBreak, "\n");
    var paragraphs := ReplaceAll(brs, EndTag("p"), "\n\n");
    var divs := ReplaceAll(paragraphs, EndTag("div"), "\n");
    var items := ReplaceAll(divs, EndTag("li"), "\n");
    ReplaceAll(items, HeadingEnd, "\n\n")
  }

  /** Every remaining `<…>` tag is removed. */
  function StripTags(s: string): string {
    ReplaceAll(s, AnyTag, "")
  }

  const LeftQuote: char := '\U{2039}'
  const RightQuote: char := '\U{203A}'

  /** `escapeHtmlCharacters`. */
  function Escape(s: string): string {
    ReplaceAll(ReplaceAll(s, Char('<'), [LeftQuote]), Char('>'), [RightQuote])
  }

  /** Runs of three or more newlines become two; the result is trimmed. */
  function Tidy(s: string): string {
    Trim(ReplaceAll(s, NewlineRun, "\n\n"))
  }

  /** What `htmlToText` returns. */
  function PlainText(html: string): string {
    Tidy(Escape(Decode(StripTags(BlockBreaks(RemoveScripts(html, MaxIterations))))))
  }

  /** `htmlToText`, stage by stage. */
  method HtmlToText(html: string) returns (text: string)
    ensures text == PlainText(html)
    ensures NoAngle(text) && NoTripleNewline(text) && IsTrimmed(text)
  {
    text := RemoveScriptsLoop(html);
    text := ReplaceAll(text, LineBreak, "\n");
    text := ReplaceAll(text, EndTag("p"), "\n\n");
    text := ReplaceAll(text, EndTag("div"), "\n");
    text := ReplaceAll(text, EndTag("li"), "\n");
    text := ReplaceAll(text, HeadingEnd, "\n\n");
    text := StripTags(text);
    text := DecodeHtmlEntities(text);
    text := Escape(text);
    text := Tidy(text);
    PlainTextIsClean(html);
  }

  /** The removal loop of route.ts:52-73: at most 100 passes, leaving the
      loop as soon as a pass changes nothing. */
  method RemoveScriptsLoop(html: string) returns (text: string)
    ensures text == RemoveScripts(html, MaxIterations)
  {
    text := html;
    for i := 0 to MaxIterations
      invariant RemoveScripts(text, MaxIterations - i) == RemoveScripts(html, MaxIterations)
    {
      var next := RemovalStep(text);
      RemoveScriptsStep(text, MaxIterations - i);
      if next == text {
        break;
      }
      text := next;
    }
  }

  /** One turn of the removal loop, as the loop needs it. */
  lemma RemoveScriptsStep(s: string, n: nat)
    requires n > 0
    ensures RemovalPass(s) == s ==> RemoveScripts(s, n) == s
    ensures RemovalPass(s) != s ==> RemoveScripts(s, n) == RemoveScripts(RemovalPass(s), n - 1)
  {
  }

  /** The body of the removal loop: the six replacements in order. */
  method RemovalStep(text: string) returns (next: string)
    ensures next == RemovalPass(text)
  {
    next := text;
    for k := 0 to |RemovalPatterns|
      invariant next == RemoveAll(text, RemovalPatterns[..k])
    {
      assert RemovalPatterns[..k + 1][..k] == RemovalPatterns[..k];
      next := ReplaceAll(next, RemovalPatterns[k], "");
    }
    assert RemovalPatterns[..|RemovalPatterns|] == RemovalPatterns;
  }

  // ---------------------------------------------------------------------
  // Properties

  /** `k` applications of `step`, unconditionally. */
  function Iterate(step: string -> string, s: string, k: nat): string
    decreases k
  {
    if k == 0 then s else Iterate(step, step(s), k - 1)
  }

  /** How many applications `Settle` performs. */
  function PassesRun(step: string -> string, s: string, passes: nat): nat
    decreases passes
  {
    if passes == 0 || step(s) == s then 0 else 1 + PassesRun(step, step(s), passes - 1)
  }

  /** `Settle` performs at most `passes` applications, and stops before the
      bound only at a fixed point of `step`. */
  lemma {:induction false} SettleBounded(step: string -> string, s: string, passes: nat)
    decreases passes
    ensures PassesRun(step, s, passes) <= passes
    ensures Settle(step, s, passes) == Iterate(step, s, PassesRun(step, s, passes))
    ensures PassesRun(step, s, passes) < passes ==> step(Settle(step, s, passes)) == Settle(step, s, passes)
  {
    var t := step(s);
    if passes > 0 && t != s {
      SettleBounded(step, t, passes - 1);
    }
  }

  /** The removal loop of route.ts:52-73 runs at most 100 passes, and when it
      stops early nothing that it removes is left in the text. */
  lemma RemovalLoopBounded(s: string)
    ensures PassesRun(RemovalPass, s, MaxIterations) <= MaxIterations
    ensures RemoveScripts(s, MaxIterations) == Iterate(RemovalPass, s, PassesRun(RemovalPass, s, MaxIterations))
    ensures var r := RemoveScripts(s, MaxIterations);
      PassesRun(RemovalPass, s, MaxIterations) < MaxIterations ==>
        NoMatchIn(r, Element("script")) && NoMatchIn(r, Element("style"))
        && NoMatchIn(r, OpenTag("script")) && NoMatchIn(r, OpenTag("style"))
        && NoMatchIn(r, CloseTag("script")) && NoMatchIn(r, CloseTag("style"))
  {
    SettleBounded(RemovalPass, s, MaxIterations);
    var r := RemoveScripts(s, MaxIterations);
    if PassesRun(RemovalPass, s, MaxIterations) < MaxIterations {
      StableTextHasNoScripts(r);
    }
  }

  /** Removing several patterns never lengthens the text, and leaves its
      length unchanged only when none of them matches anywhere. */
  lemma {:induction false} RemoveAllShrinks(s: string, patterns: seq<Pattern>)
    decreases |patterns|
    ensures |RemoveAll(s, patterns)| <= |s|
    ensures |RemoveAll(s, patterns)| == |s| ==>
      RemoveAll(s, patterns) == s && forall k :: 0 <= k < |patterns| ==> NoMatchIn(s, patterns[k])
  {
    if patterns != [] {
      var init := patterns[..|patterns| - 1];
      var r := RemoveAll(s, init);
      RemoveAllShrinks(s, init);
      RemovalShrinks(r, patterns[|patterns| - 1]);
      if |RemoveAll(s, patterns)| == |s| {
        forall k | 0 <= k < |patterns| ensures NoMatchIn(s, patterns[k]) {
          if k < |patterns| - 1 {
            assert patterns[k] == init[k];
          }
        }
      }
    }
  }

  /** Text that one removal pass leaves alone holds no script or style
      block, no opening script or style tag closed by a `>`, and no closing
      one: when the loop stops early, nothing it targets is left. */
  lemma StableTextHasNoScripts(s: string)
    requires RemovalPass(s) == s
    ensures NoMatchIn(s, Element("script")) && NoMatchIn(s, Element("style"))
    ensures NoMatchIn(s, OpenTag("script")) && NoMatchIn(s, OpenTag("style"))
    ensures NoMatchIn(s, CloseTag("script")) && NoMatchIn(s, CloseTag("style"))
  {
    RemoveAllShrinks(s, RemovalPatterns);
    assert NoMatchIn(s, RemovalPatterns[0]) && NoMatchIn(s, RemovalPatterns[1]);
    assert NoMatchIn(s, RemovalPatterns[2]) && NoMatchIn(s, RemovalPatterns[3]);
    assert NoMatchIn(s, RemovalPatterns[4]) && NoMatchIn(s, RemovalPatterns[5]);
  }

  function EscapeChar(c: char): char {
    if c == '<' then LeftQuote else if c == '>' then RightQuote else c
  }

  lemma {:induction false} ReplaceCharByChar(s: string, c: char, d: char)
    decreases |s|
    ensures |ReplaceAll(s, Char(c), [d])| == |s|
    ensures forall i :: 0 <= i < |s| ==>
      ReplaceAll(s, Char(c), [d])[i] == if s[i] == c then d else s[i]
  {
    if s != [] {
      ReplaceCharByChar(s[1..], c, d);
    }
  }

  /** `escapeHtmlCharacters` maps each character on its own: `<` to `‹`,
      `>` to `›`, anything else to itself. */
  lemma EscapeCharwise(s: string)
    ensures |Escape(s)| == |s|
    ensures forall i :: 0 <= i < |s| ==> Escape(s)[i] == EscapeChar(s[i])
  {
    var t := ReplaceAll(s, Char('<'), [LeftQuote]);
    ReplaceCharByChar(s, '<', LeftQuote);
    ReplaceCharByChar(t, '>', RightQuote);
  }

  /** No `<` is followed, anywhere later, by a `>`. */
  predicate NoTagLeft(r: string) {
    forall i, j :: 0 <= i < j < |r| && r[i] == '<' ==> r[j] != '>'
  }

  /** Stripping tags leaves no `<…>` tag: a `<` that survives has no `>`
      anywhere after it, which is when `/<[^>]*>/` cannot match. */
  lemma {:induction false} StripTagsLeavesNoTag(s: string)
    decreases |s|
    ensures NoTagLeft(StripTags(s))
    ensures NoMatchIn(StripTags(s), AnyTag)
  {
    var r := StripTags(s);
    if s != [] {
      match MatchLen(s, AnyTag)
      case Some(n) =>
        StripTagsLeavesNoTag(s[n..]);
      case None =>
        var rest := StripTags(s[1..]);
        StripTagsLeavesNoTag(s[1..]);
        assert r == [s[0]] + rest;
        if s[0] == '<' {
          assert Avoids(s[1..], {'>'}) by {
            assert FindChar(s, '>', 1).None?;
            forall k | 0 <= k < |s[1..]| ensures s[1..][k] != '>' {
              assert s[1..][k] == s[k + 1];
            }
          }
          ReplaceAvoids(s[1..], AnyTag, "", {'>'});
        }
        forall i, j | 0 <= i < j < |r| && r[i] == '<' ensures r[j] != '>' {
          assert r[j] == rest[j - 1];
          if i > 0 {
            assert r[i] == rest[i - 1];
          }
        }
    }
    NoTagLeftNoMatch(r);
  }

  lemma NoTagLeftNoMatch(r: string)
    requires NoTagLeft(r)
    ensures NoMatchIn(r, AnyTag)
  {
    forall i | 0 <= i < |r| ensures MatchLen(r[i..], AnyTag).None? {
      if r[i] == '<' {
        forall j | 1 <= j < |r[i..]| ensures r[i..][j] != '>' {
          assert r[i..][j] == r[i + j];
        }
      }
    }
  }

  /** No angle bracket survives `escapeHtmlCharacters`. */
  lemma EscapeNeutralizes(s: string)
    ensures NoAngle(Escape(s))
  {
    var t := ReplaceAll(s, Char('<'), [LeftQuote]);
    ReplaceCharRemoves(s, '<', [LeftQuote], {});
    assert {} + {'<'} == {'<'};
    ReplaceCharRemoves(t, '>', [RightQuote], {'<'});
    assert {'<'} + {'>'} == {'<', '>'};
  }

  /** The output of `htmlToText` holds no `<` or `>`, no run of three
      newlines, and no leading or trailing whitespace. */
  lemma PlainTextIsClean(html: string)
    ensures NoAngle(PlainText(html))
    ensures NoTripleNewline(PlainText(html))
    ensures IsTrimmed(PlainText(html))
  {
    var d := Decode(StripTags(BlockBreaks(RemoveScripts(html, MaxIterations))));
    EscapeNeutralizes(d);
    TidyIsClean(Escape(d));
  }

  /** Tidying text free of angle brackets keeps it free of them, and leaves
      no run of three newlines and no surrounding whitespace. */
  lemma TidyIsClean(e: string)
    requires NoAngle(e)
    ensures NoAngle(Tidy(e)) && NoTripleNewline(Tidy(e)) && IsTrimmed(Tidy(e))
  {
    TidyNoAngle(e);
    TidyNoTriple(e);
  }

  lemma TidyNoAngle(e: string)
    requires NoAngle(e)
    ensures NoAngle(Tidy(e))
  {
    var rep := "\n\n";
    assert rep == ['\n', '\n'];
    ReplaceAvoids(e, NewlineRun, rep, {'<', '>'});
    TrimAvoids(ReplaceAll(e, NewlineRun, rep), {'<', '>'});
  }

  lemma TidyNoTriple(e: string)
    ensures NoTripleNewline(Tidy(e))
  {
    var c := ReplaceAll(e, NewlineRun, "\n\n");
    CollapseNewlines(e);
    var a := LeadingWhile(c, IsSpace);
    NoTripleSlice(c, a, a + |Trim(c)|);
  }

  lemma MarkupFree(s: string, p: Pattern, rep: string)
    requires IsMarkup(p) && Avoids(s, {'<'})
    ensures ReplaceAll(s, p, rep) == s
  {
    MarkupAbsentWithoutAngle(s, p);
    ReplaceWithoutMatch(s, p, rep);
  }

  /** A pattern list of markup leaves text without `<` alone. */
  lemma {:induction false} RemoveAllMarkupFree(s: string, patterns: seq<Pattern>)
    requires Avoids(s, {'<'})
    requires forall k :: 0 <= k < |patterns| ==> IsMarkup(patterns[k])
    decreases |patterns|
    ensures RemoveAll(s, patterns) == s
  {
    if patterns != [] {
      RemoveAllMarkupFree(s, patterns[..|patterns| - 1]);
      MarkupFree(s, patterns[|patterns| - 1], "");
    }
  }

  /** Text without `<` leaves the removal loop after its first pass. */
  lemma ScriptFree(s: string)
    requires Avoids(s, {'<'})
    ensures RemoveScripts(s, MaxIterations) == s
  {
    RemoveAllMarkupFree(s, RemovalPatterns);
    RemoveScriptsStep(s, MaxIterations);
  }

  /** Text without `<` has no block boundary to break and no tag to strip. */
  lemma TagFree(s: string)
    requires Avoids(s, {'<'})
    ensures StripTags(BlockBreaks(s)) == s
  {
    MarkupFree(s, LineBreak, "\n");
    MarkupFree(s, EndTag("p"), "\n\n");
    MarkupFree(s, EndTag("div"), "\n");
    MarkupFree(s, EndTag("li"), "\n");
    MarkupFree(s, HeadingEnd, "\n\n");
    MarkupFree(s, AnyTag, "");
  }

  /** Text with no `<`, `>` or `&` comes out of `htmlToText` with only its
      whitespace tidied. */
  lemma PlainTextOfText(s: string)
    requires Avoids(s, {'<', '>', '&'})
    ensures PlainText(s) == Tidy(s)
  {
    assert Avoids(s, {'<'});
    ScriptFree(s);
    TagFree(s);
    DecodePlain(s);
    EscapeCharwise(s);
    assert Escape(s) == s;
  }
}
