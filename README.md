# UnDoc document processing, modelled in Dafny

UnDoc takes a documentation page and turns it into a simplified document:
a title, a short summary, up to eight typed sections and up to five key
takeaways. All of this happens in `src/app/api/process/route.ts`. That file
is a chain of deterministic string transformations:

- `decodeHtmlEntities` decodes five named references and the numeric
  reference `&#39;`, and then `&amp;`.
- `htmlToText` turns markup into plain text. It first runs a bounded loop of
  script and style removal. It then handles block breaks, strips tags,
  decodes entities, and uses `escapeHtmlCharacters` to neutralise any `<`
  and `>` that survive. Finally it tidies whitespace.
- `extractTitle` and `extractMainContent` try fixed regular expressions in
  a first-match-wins order, with fallbacks.
- `extractSections` groups lines under heading-like lines. `createSection`
  classifies each group and caps its length.
- `generateSummary` and `extractKeyTakeaways` filter sentences and lines by
  length windows and marker words, each with a fallback tier.

The model has one module per stage:

| module | file | stage |
|---|---|---|
| `Text` | `text.dfy` | string helpers: `trim`, `split`, `join`, slicing, ASCII case mapping |
| `Patterns` | `patterns.dfy` | each fixed regular expression as a scanner, and global replacement |
| `Entities` | `entities.dfy` | `decodeHtmlEntities` |
| `Markup` | `markup.dfy` | `htmlToText` and `escapeHtmlCharacters` |
| `Locate` | `locate.dfy` | `extractTitle` and `extractMainContent` |
| `Sections` | `sections.dfy` | `extractSections` and `createSection` |
| `Summary` | `summary.dfy` | `generateSummary` |
| `Takeaways` | `takeaways.dfy` | `extractKeyTakeaways` |
| `Pipeline` | `pipeline.dfy` | the `ProcessedDoc` the handler assembles |

Some source functions update variables in loops: the entity loop, the
removal loop, the candidate loop of `extractMainContent`, the section scan
with its accumulator, the takeaway line loop and its fallback loop. Each of
these is a method with a `while` or `for` loop. Each method is proved equal
to a function that states the result, and the source's promises are proved
as lemmas about those functions.

Regular expressions are modelled as scanners, one per fixed pattern:
leftmost match, lazy `[\s\S]*?` up to the first closing tag, and
case-insensitive tag names. A global `replace` is a left-to-right rewrite
that does not overlap matches. `split(x).join(y)` is literal substitution.
Strings are sequences of characters.

## Model

| member | source | states |
|---|---|---|
| Entities.DecodeHtmlEntities | src/app/api/process/route.ts:18-37 | The loop returns `Decode(text)`: the six table references are substituted in table order, then `&amp;` is substituted in a separate pass. |
| Entities.DecodeInvertsEncode | src/app/api/process/route.ts:28-34 | For any text, write every `&` as `&amp;` and any chosen set of `<`, `>`, `"`, `'` as their references. Decoding the result gives back exactly the original text, so no character is decoded twice. |
| Entities.EscapedReferenceStaysLiteral | src/app/api/process/route.ts:33-34 | `&amp;lt;` decodes to the literal `&lt;`, never to `<`. |
| Entities.DecodeReference | src/app/api/process/route.ts:19-26 | `&lt;`, `&gt;`, `&quot;` and `&#39;` each decode on their own to their character. |
| Entities.DecodeTableEntry | src/app/api/process/route.ts:19-34 | Every entry of the table, `&nbsp;` and `&apos;` included, decodes on its own to its replacement: earlier entries leave it alone, and later entries and the `&amp;` pass leave its replacement alone. |
| Entities.DecodePlain | src/app/api/process/route.ts:28-36 | Text without `&` is left unchanged. |
| Markup.HtmlToText | src/app/api/process/route.ts:46-100 | The staged method returns `PlainText(html)`. The result has no `<` or `>`, no run of three newlines, and no leading or trailing whitespace. |
| Markup.RemoveScriptsLoop | src/app/api/process/route.ts:52-73 | The counter-bounded loop with an early exit when nothing changes returns the removal settled within 100 passes. |
| Markup.RemovalStep | src/app/api/process/route.ts:57-69 | One pass removes whole script blocks, whole style blocks, orphaned opening tags and orphaned closing tags, in source order. |
| Markup.RemovalLoopBounded | src/app/api/process/route.ts:52-73 | The loop runs at most 100 passes. Its result is the pass applied that many times. If it stops early, none of the six removal patterns matches anywhere in the result. |
| Markup.SettleBounded | src/app/api/process/route.ts:54-73 | For any step function, the bounded loop with an early exit runs at most `passes` passes. If it stops before the bound, the result is a fixed point of the step. |
| Markup.StableTextHasNoScripts | src/app/api/process/route.ts:71-72 | If a pass leaves the text unchanged, the text contains no script or style block and no orphaned script or style tag. |
| Markup.StripTagsLeavesNoTag | src/app/api/process/route.ts:82-83 | After the tag removal, no `<` has a `>` anywhere after it, so `/<[^>]*>/` matches nowhere in the result. |
| Markup.EscapeCharwise | src/app/api/process/route.ts:104-108 | `escapeHtmlCharacters` keeps the length. It maps each `<` to `‹` and each `>` to `›`, and keeps every other character. |
| Markup.EscapeNeutralizes | src/app/api/process/route.ts:104-108 | The escaped text contains no `<` or `>`. |
| Markup.PlainTextIsClean | src/app/api/process/route.ts:84-97 | The output of `htmlToText` contains no `<` or `>`, no run of three newlines, and no leading or trailing whitespace. |
| Markup.TidyIsClean | src/app/api/process/route.ts:94-96 | Collapsing newline runs and trimming keep text free of angle brackets and leave no run of three newlines and no surrounding whitespace. |
| Markup.PlainTextOfText | src/app/api/process/route.ts:46-100 | Text with no `<`, `>` or `&` passes through unchanged apart from newline collapsing and trimming. |
| Patterns.CollapseNewlines | src/app/api/process/route.ts:95-96 | After `\n{3,}` is replaced by two newlines, no run of three newlines remains. The leading run becomes at most two long. |
| Patterns.RemovalShrinks | src/app/api/process/route.ts:58-69 | Removing every match never lengthens the text. It keeps the length exactly when the pattern matches nowhere, and then the text is unchanged. |
| Patterns.MarkupAbsentWithoutAngle | src/app/api/process/route.ts:58-84 | No tag pattern matches in text without `<`. |
| Patterns.ReplaceAvoids | src/app/api/process/route.ts:76-96 | A global replace introduces only the characters of its replacement. |
| Locate.Title | src/app/api/process/route.ts:111-123 | The result is the text of the first `<title>` if there is one, else the text of the first `<h1>`, else exactly `"Documentation"`. It has no angle bracket and is trimmed. |
| Locate.PlainPageTitle | src/app/api/process/route.ts:111-123 | A page without `<` gets the title `"Documentation"`. |
| Locate.ElementAt | src/app/api/process/route.ts:129-130 | A `<tag…>…</tag>` match satisfies the lazy pattern's conditions: the first `>` ends the opening tag, and the capture stops at the first closing tag. |
| Locate.ElementAtComplete | src/app/api/process/route.ts:129-130 | Every span that meets those conditions is the one the scanner finds, so the scanner misses no match. |
| Locate.DivAtIsGreedy | src/app/api/process/route.ts:131-133 | The `<div … class="…content…">` scanner takes the attribute at the rightmost position before the tag's first `>` where the rest can match, as the greedy `[^>]*` does. |
| Locate.Search | src/app/api/process/route.ts:137 | `match` finds the leftmost position where the pattern matches, and no earlier position matches. |
| Locate.FirstMatching | src/app/api/process/route.ts:136-141 | The chosen candidate matches and every earlier candidate does not. If none is chosen, no candidate matches. |
| Locate.FirstCapture | src/app/api/process/route.ts:136-141 | The candidate loop returns a capture exactly when some candidate matches, and then it is the first candidate's capture. |
| Locate.FindMainRegion | src/app/api/process/route.ts:126-150 | The markup handed to `htmlToText` is the first matching candidate's capture, else the body's, else the whole page. |
| Locate.ExtractMainContent | src/app/api/process/route.ts:126-150 | The content is `htmlToText` of that markup. It has no angle bracket or triple newline and is trimmed. |
| Locate.PlainPageContent | src/app/api/process/route.ts:143-149 | A page without `<` falls through every candidate and the body to the whole page. |
| Locate.PlainPageText | src/app/api/process/route.ts:126-150 | A page with no `<`, `>` or `&` gives as content the page itself, with newlines collapsed and trimmed. |
| Sections.KindFrom | src/app/api/process/route.ts:205-215 | The type is the first keyword group, in priority order, whose keywords occur in the lower-cased title. It is `overview` exactly when no group matches. |
| Sections.CreateSection | src/app/api/process/route.ts:200-222 | The title is kept and the type comes from the title. Content of up to 1500 characters is kept whole. Longer content becomes its first 1500 characters plus `"..."`, and the result is 1503 characters long exactly when the input was longer than 1500. |
| Sections.ApiQuickstartIsQuickstart | src/app/api/process/route.ts:205-206 | "API Quickstart" is classified as quickstart, because quickstart has priority over api-reference. |
| Text.UpperFixedIffNoLower | src/app/api/process/route.ts:168 | A line equals its upper-case form exactly when it has no lower-case letter. |
| Text.SplitJoin | src/app/api/process/route.ts:156 | Joining the lines of `split("\n")` again with `\n` gives back the content, so the line split loses or invents no character. |
| Sections.SingleWordIsTitleCase | src/app/api/process/route.ts:169 | One capitalised word of two or more letters matches the title-case pattern. |
| Sections.TitleCaseEnds | src/app/api/process/route.ts:169 | A title-case line starts with an upper-case letter and ends with a lower-case one. |
| Sections.NoLowerStartsSection | src/app/api/process/route.ts:166-172 | A line of 3 to 99 characters that does not end in `.` and has no lower-case letter starts a section. This includes digits-only lines. |
| Sections.SentenceIsNotHeading | src/app/api/process/route.ts:167 | A line ending in `.` never starts a section. |
| Sections.StripHashes | src/app/api/process/route.ts:176 | The heading title is a suffix of the line. It differs from the line exactly when the line starts with `#`. What is removed is the whole leading `#` run followed only by whitespace, and what is left does not start with whitespace. |
| Sections.GroupLines | src/app/api/process/route.ts:161-186 | The line loop with its accumulator returns the scan's finished sections in order, together with the final flush. |
| Sections.ExtractSections | src/app/api/process/route.ts:153-198 | The method returns `SectionList` of the main content, with 1 to 8 sections. |
| Sections.SectionList | src/app/api/process/route.ts:188-197 | There are always 1 to 8 sections. With no scanned section there is exactly one Overview fallback. Otherwise the sections are the first eight scanned ones. |
| Sections.DraftsKeepBody | src/app/api/process/route.ts:161-186 | The scanned sections' content lines, concatenated in order, are exactly the non-blank trimmed lines that do not start a section, so no body line is lost or repeated. Every scanned section has at least one content line. |
| Sections.DraftsAreSections | src/app/api/process/route.ts:161-186 | The scan's sections are those read off the headings of the non-blank trimmed lines. Each heading opens a section titled by the heading without its `#` run, holding the lines up to the next heading. Lines before the first heading form an "Overview" section, and a heading with no line under it gives no section. |
| Sections.LastHeading | src/app/api/process/route.ts:166-172 | The position found holds a line that opens a section, and no later line does. If none is found, no line opens a section. |
| Sections.SectionedBodies | src/app/api/process/route.ts:172-181 | Every section read off the headings has at least one line, and none of its lines opens a section. |
| Sections.FallbackIffNoBody | src/app/api/process/route.ts:188-195 | The fallback section is added exactly when the content has no line outside the headings. |
| Sections.SectionsWellFormed | src/app/api/process/route.ts:173-197 | Each section keeps the content's exclusions, for example no `<` or `>`, and has at most 2003 characters. A scanned section is non-empty and has at most 1503 characters. |
| Summary.GenerateSummary | src/app/api/process/route.ts:225-238 | The summary is never empty and ends with `.`. |
| Summary.SentencesShape | src/app/api/process/route.ts:227-231 | At most three sentences are kept. Each is trimmed, longer than 20 characters, and free of `.`, `!` and `?`. |
| Summary.SentencesFromContent | src/app/api/process/route.ts:227-231 | Each kept sentence is the trimmed form of a long piece of the content. |
| Summary.SentencesFirst | src/app/api/process/route.ts:229-230 | While fewer than three sentences are kept, no long piece of the content is skipped. |
| Summary.SummaryResplits | src/app/api/process/route.ts:233-235 | Splitting the joined summary at `.`, `!` and `?` and trimming the pieces gives back exactly the kept sentences, followed by the empty piece after the final `.`. |
| Summary.FallbackNamesTitle | src/app/api/process/route.ts:237 | Without a long sentence the fixed fallback text is used, and it contains the title. |
| Summary.SummaryAvoids | src/app/api/process/route.ts:225-238 | The summary avoids whatever characters the content, the title and the fixed words avoid. |
| Takeaways.ExtractKeyTakeaways | src/app/api/process/route.ts:241-278 | The line loop, then the fallback loop, then the cut to five, together return `KeyTakeaways(content)`. |
| Takeaways.MarkerLoop | src/app/api/process/route.ts:245-263 | The loop with `break` at five returns the first five qualifying trimmed lines, cleaned of their list markers. |
| Takeaways.TrimEach | src/app/api/process/route.ts:272-274 | The fallback loop pushes each sentence trimmed, in order. |
| Takeaways.MarkedSound | src/app/api/process/route.ts:248-259 | Every collected entry is the cleaned form of a line that qualifies: trimmed length strictly between 30 and 200, and a marker word, a numbered item or a bullet. |
| Takeaways.MarkedComplete | src/app/api/process/route.ts:248-259 | Every qualifying line is collected. |
| Takeaways.MarkedEmpty | src/app/api/process/route.ts:266 | Nothing is collected exactly when no line qualifies. |
| Takeaways.LinePath | src/app/api/process/route.ts:245-266 | When some line qualifies, the takeaways are the first five collected entries, and the list of takeaways is not empty. Each entry comes from a qualifying line, and the fallback does not run. |
| Takeaways.FallbackPath | src/app/api/process/route.ts:266-275 | When no line qualifies, the takeaways are the trimmed fallback sentences. |
| Takeaways.FallbackShape | src/app/api/process/route.ts:267-274 | At most three fallback sentences are used. Each is trimmed, has a length strictly between 40 and 200, contains no `.` or `!`, and is a piece of the content. |
| Takeaways.AtMostFive | src/app/api/process/route.ts:277 | There are never more than five takeaways. |
| Takeaways.Clean | src/app/api/process/route.ts:259 | Cleaning a line leaves a suffix of it. |
| Takeaways.CleanKeepsPlain | src/app/api/process/route.ts:259 | A line that does not start with `-`, `*` or a digit is kept whole. |
| Takeaways.CleanRemovesMarker | src/app/api/process/route.ts:259 | A numbered item loses its digits, its `.` and all the whitespace after them. A bullet loses its `-` or `*` and all the whitespace after it. Either way at least two characters go. |
| Takeaways.TakeawaysAvoid | src/app/api/process/route.ts:241-278 | Every takeaway avoids whatever characters the content avoids. |
| Pipeline.Process | src/app/api/process/route.ts:327-339 | Processing returns `Document(html, url)`, and that document is well formed. |
| Pipeline.DocumentWellFormed | src/app/api/process/route.ts:327-339 | For every page, no title, summary, section title, section content or takeaway contains `<` or `>`. The summary ends with `.`. There are 1 to 8 sections of at most 2003 characters each, and at most five takeaways. |
| Pipeline.Assembled | src/app/api/process/route.ts:327-339 | Any title and content free of angle brackets give a well-formed document. |

## Left out

- The rest of the `POST` handler (route.ts:290-349) is left out: JSON parsing, `fetch`, HTTP status codes and error logging are network and framework I/O. The model starts from the fetched page text and the requested address.
- `isValidUrl` is left out. It wraps the platform `URL` parser, whose rules are not visible here.
- `src/app/page.tsx` and `src/app/layout.tsx` are left out. They hold the React user interface and static layout, with no processing logic.
- `toLowerCase`, `toUpperCase` and the `i` flag are modelled with ASCII case mapping only. JavaScript's full Unicode case mapping is not modelled, so for non-ASCII letters the classification and heading tests may differ.
- `\s` and `trim` use ECMAScript's whitespace set. `\b` uses ASCII word characters, as JavaScript does without the `u` flag.
- Lengths count characters, not UTF-16 code units. They differ only for characters outside the Basic Multilingual Plane.
- A general regular-expression engine is not modelled. Only the fixed patterns the code uses are modelled, each by its own scanner.

## Notes on the code's behaviour

The model follows the code as written. These consequences are visible in it:

- The title can be empty (an empty `<title></title>`), and it can span several lines (a `<br>` inside the title).
- The fallback Overview section is cut at 2000 characters, not 1500, so a section can hold up to 2003 characters.
- A single capitalised word such as `Install` counts as a heading.
- A line with no lower-case letters, digits-only lines included, also counts as a heading.
- A line of only `###` is a heading whose title is empty.
- A takeaway can be empty: a bullet such as `-`, a run of spaces and `1.` qualifies by its length, and cleaning its two markers leaves nothing.
