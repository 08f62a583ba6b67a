/** The processing step of the `POST` handler (route.ts): from the fetched
    page, the title, the main content, the sections, the summary and the key
    takeaways, assembled into the document the handler answers with. */
module Pipeline {
  import opened Text
  import Markup
  import Locate
  import Sections
  import Summary
  import Takeaways

  /** The `ProcessedDoc` the handler returns. */
  datatype ProcessedDoc = ProcessedDoc(
    title: string,
    summary: string,
    sections: seq<Sections.Section>,
    keyTakeaways: seq<string>,
    originalUrl: string)

  /** The document built from the page `html` fetched from `url`. */
  function Document(html: string, url: string): ProcessedDoc {
    var title := Locate.Title(html);
    var content := Locate.MainContent(html);
    ProcessedDoc(
      title,
      Summary.GenerateSummary(content, title),
      Sections.SectionList(content),
      Takeaways.KeyTakeaways(content),
      url)
  }

  /** What every document promises its reader: no raw angle bracket in any
      text shown, a summary that ends a sentence, one to eight sections with
      bounded content, and at most five takeaways. */
  predicate WellFormed(doc: ProcessedDoc) {
    && NoAngle(doc.title)
    && NoAngle(doc.summary) && doc.summary != [] && doc.summary[|doc.summary| - 1] == '.'
    && 1 <= |doc.sections| <= Sections.MaxSections
    && (forall k :: 0 <= k < |doc.sections| ==>
          NoAngle(doc.sections[k].title) && NoAngle(doc.sections[k].content)
          && |doc.sections[k].content| <= Sections.MaxFallback + 3)
    && |doc.keyTakeaways| <= Takeaways.MaxTakeaways
    && (forall k :: 0 <= k < |doc.keyTakeaways| ==> NoAngle(doc.keyTakeaways[k]))
  }

  /** The handler's processing, in the order it runs: the title, the main
      content, the sections (which find the main content again), the
      summary and the takeaways. */
  method Process(html: string, url: string) returns (doc: ProcessedDoc)
    ensures doc == Document(html, url)
    ensures WellFormed(doc)
  {
    var title := Locate.Title(html);
    var content := Locate.ExtractMainContent(html);
    var sections := Sections.ExtractSections(html);
    var summary := Summary.GenerateSummary(content, title);
    var keyTakeaways := Takeaways.ExtractKeyTakeaways(content);
    doc := ProcessedDoc(title, summary, sections, keyTakeaways, url);
    DocumentWellFormed(html, url);
  }

  /** Every document the handler can build is well formed. */
  lemma DocumentWellFormed(html: string, url: string)
    ensures WellFormed(Document(html, url))
  {
    var title := Locate.Title(html);
    var content := Locate.MainContent(html);
    Markup.PlainTextIsClean(Locate.MainRegion(html));
    Assembled(title, content, url);
  }

  /** The parts built from a title and a content free of angle brackets make
      a well-formed document. */
  lemma Assembled(title: string, content: string, url: string)
    requires NoAngle(title) && NoAngle(content)
    ensures WellFormed(ProcessedDoc(title, Summary.GenerateSummary(content, title),
      Sections.SectionList(content), Takeaways.KeyTakeaways(content), url))
  {
    SummaryPlain(content, title);
    SectionsPlain(content);
    TakeawaysPlain(content);
  }

  lemma SummaryPlain(content: string, title: string)
    requires NoAngle(content) && NoAngle(title)
    ensures NoAngle(Summary.GenerateSummary(content, title))
  {
    FixedWordsPlain();
    Summary.SummaryAvoids(content, title, {'<', '>'});
  }

  lemma SectionsPlain(content: string)
    requires NoAngle(content)
    ensures var ss := Sections.SectionList(content);
      forall k :: 0 <= k < |ss| ==>
        NoAngle(ss[k].title) && NoAngle(ss[k].content) && |ss[k].content| <= Sections.MaxFallback + 3
  {
    FixedWordsPlain();
    Sections.SectionsWellFormed(content, {'<', '>'});
  }

  lemma TakeawaysPlain(content: string)
    requires NoAngle(content)
    ensures var ts := Takeaways.KeyTakeaways(content);
      |ts| <= Takeaways.MaxTakeaways && forall k :: 0 <= k < |ts| ==> NoAngle(ts[k])
  {
    Takeaways.TakeawaysAvoid(content, {'<', '>'});
    Takeaways.AtMostFive(content);
  }

  /** The words the code adds on its own hold no angle bracket. */
  lemma FixedWordsPlain()
    ensures NoAngle("Overview") && NoAngle(Summary.Lead)
    ensures NoAngle(Summary.Separator) && NoAngle(Summary.Tail)
  {
    LeadPlain();
    ClosingPlain();
    assert Summary.Separator == ['.', ' '];
    AppendPlain(Summary.Separator, Summary.Closing);
  }

  lemma LeadPlain()
    ensures NoAngle("Overview") && NoAngle(Summary.Lead)
  {
    var overview := "Overview";
    assert overview == ['O', 'v', 'e', 'r', 'v', 'i', 'e', 'w'];
    forall i | 0 <= i < |Summary.Lead| ensures Summary.Lead[i] !in {'<', '>'} {
      assert Summary.Lead[i] in "Documentation for ";
    }
  }

  lemma ClosingPlain()
    ensures NoAngle(Summary.Closing)
  {
    var a, b, c := "This page has been", " simplified for", " easier reading.";
    PiecePlain(a);
    PiecePlain(b);
    PiecePlain(c);
    AppendPlain(a, b);
    AppendPlain(a + b, c);
  }

  /** A piece of the fixed words, checked against its own characters. */
  lemma PiecePlain(s: string)
    requires s == "This page has been" || s == " simplified for" || s == " easier reading."
    ensures NoAngle(s)
  {
    forall i | 0 <= i < |s| ensures s[i] !in {'<', '>'} {
      if s == "This page has been" {
        assert s[i] in "This page has been";
      } else if s == " simplified for" {
        assert s[i] in " simplified for";
      } else {
        assert s[i] in " easier reading.";
      }
    }
  }

  lemma AppendPlain(a: string, b: string)
    requires NoAngle(a) && NoAngle(b)
    ensures NoAngle(a + b)
  {
    assert forall i :: |a| <= i < |a + b| ==> (a + b)[i] == b[i - |a|];
  }
}
