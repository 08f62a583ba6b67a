/** `generateSummary` (route.ts): the first three long sentences of the main
    content, trimmed and joined into one paragraph, or a fixed sentence that
    names the page when the content has none. */
module Summary {
  import opened Text

  /** The class of `split(/[.!?]/)`. */
  const SentenceEnds: set<char> := {'.', '!', '?'}

  /** A sentence is kept when its trimmed length exceeds this. */
  const MinLength: nat := 20

  const MaxSentences: nat := 3

  const Separator: string := ". "

  predicate LongEnough(s: string) {
    |Trim(s)| > MinLength
  }

  /** The split, filter, slice and trim chain. */
  function Sentences(content: string): seq<string> {
    TrimAll(Take(Filter(Split(content, SentenceEnds), LongEnough), MaxSentences))
  }

  const Lead: string := "Documentation for "
  /** The closing sentence of the fallback, "This page has been simplified
      for easier reading.", written in three pieces. */
  const Closing: string := "This page has been" + " simplified for" + " easier reading."
  const Tail: string := Separator + Closing

  /** The text used when no sentence is long enough. */
  function FallbackSummary(title: string): string {
    Lead + title + Tail
  }

  /** What `generateSummary` returns. */
  function GenerateSummary(content: string, title: string): (r: string)
    ensures r != [] && r[|r| - 1] == '.'
  {
    var ss := Sentences(content);
    if |ss| > 0 then Join(ss, Separator) + "." else FallbackSummary(title)
  }

  // ---------------------------------------------------------------------
  // Properties

  /** At most three sentences are kept, each trimmed, longer than twenty
      characters and free of sentence ends. */
  lemma SentencesShape(content: string)
    ensures |Sentences(content)| <= MaxSentences
    ensures forall k :: 0 <= k < |Sentences(content)| ==>
      IsTrimmed(Sentences(content)[k]) && |Sentences(content)[k]| > MinLength
      && Avoids(Sentences(content)[k], SentenceEnds)
  {
    var pieces := Split(content, SentenceEnds);
    var kept := Take(Filter(pieces, LongEnough), MaxSentences);
    assert Sentences(content) == TrimAll(kept);
    KeptFrom(pieces, LongEnough, MaxSentences);
    KeptAvoids(pieces, LongEnough, MaxSentences, SentenceEnds);
  }

  /** `s` is the trimmed form of a long piece of `content`. */
  predicate FromContent(content: string, s: string) {
    exists p :: p in Split(content, SentenceEnds) && LongEnough(p) && s == Trim(p)
  }

  /** Each sentence is the trimmed form of a long piece of the content. */
  lemma SentencesFromContent(content: string)
    ensures forall k :: 0 <= k < |Sentences(content)| ==> FromContent(content, Sentences(content)[k])
  {
    var pieces := Split(content, SentenceEnds);
    var kept := Take(Filter(pieces, LongEnough), MaxSentences);
    assert Sentences(content) == TrimAll(kept);
    KeptFrom(pieces, LongEnough, MaxSentences);
    var ss := Sentences(content);
    forall k | 0 <= k < |ss| ensures FromContent(content, ss[k]) {
      assert ss[k] == Trim(kept[k]) && kept[k] in pieces && LongEnough(kept[k]);
    }
  }

  /** The sentences are the first long pieces: while fewer than three are
      kept, no long piece of the content is passed over. */
  lemma SentencesFirst(content: string)
    ensures |Sentences(content)| < MaxSentences ==>
      forall p :: p in Split(content, SentenceEnds) && LongEnough(p) ==> Trim(p) in Sentences(content)
  {
    var pieces := Split(content, SentenceEnds);
    assert Sentences(content) == TrimAll(Take(Filter(pieces, LongEnough), MaxSentences));
    KeptAll(pieces, LongEnough, MaxSentences);
  }

  /** Splitting the summary at its sentence ends and trimming the pieces
      gives back exactly the chosen sentences, followed by the empty piece
      after the final `.`: joining loses and merges nothing. */
  lemma SummaryResplits(content: string, title: string)
    requires Sentences(content) != []
    ensures TrimAll(Split(GenerateSummary(content, title), SentenceEnds)) == Sentences(content) + [""]
  {
    SentencesShape(content);
    ResplitFrom([], Sentences(content));
    assert [] + Join(Sentences(content), Separator) == Join(Sentences(content), Separator);
  }

  lemma {:induction false} ResplitFrom(p: string, ss: seq<string>)
    requires p == [] || p == " "
    requires ss != []
    requires forall k :: 0 <= k < |ss| ==> ss[k] != [] && IsTrimmed(ss[k]) && Avoids(ss[k], SentenceEnds)
    decreases |ss|
    ensures TrimAll(Split(p + Join(ss, Separator) + ".", SentenceEnds)) == ss + [""]
  {
    var head := p + ss[0];
    HeadPiece(p, ss[0]);
    if |ss| == 1 {
      assert p + Join(ss, Separator) + "." == head + ['.'] + [];
      SplitAfter(head, '.', [], SentenceEnds);
      TrimAllCons(head, [[]]);
    } else {
      var rest := " " + Join(ss[1..], Separator) + ".";
      JoinNext(p, ss);
      SplitAfter(head, '.', rest, SentenceEnds);
      ResplitFrom(" ", ss[1..]);
      TrimAllCons(head, Split(rest, SentenceEnds));
      assert ss == [ss[0]] + ss[1..];
    }
  }

  lemma HeadPiece(p: string, s: string)
    requires p == [] || p == " "
    requires s != [] && IsTrimmed(s) && Avoids(s, SentenceEnds)
    ensures Avoids(p + s, SentenceEnds) && Trim(p + s) == s
  {
    TrimSpacesBefore(p, s);
  }

  lemma JoinNext(p: string, ss: seq<string>)
    requires |ss| > 1
    ensures p + Join(ss, Separator) + "." == (p + ss[0]) + ['.'] + (" " + Join(ss[1..], Separator) + ".")
  {
    var j := Join(ss[1..], Separator);
    assert Join(ss, Separator) == ss[0] + Separator + j;
    assert Separator == ['.'] + " ";
  }

  /** Without a long sentence the fallback is used, and it names the page. */
  lemma FallbackNamesTitle(content: string, title: string)
    requires Sentences(content) == []
    ensures GenerateSummary(content, title) == FallbackSummary(title)
    ensures Contains(GenerateSummary(content, title), title)
  {
    var r := FallbackSummary(title);
    assert r[|Lead|..][..|title|] == title;
    ContainsAt(r, title, |Lead|);
  }

  /** A summary is built only from the content and the title, so what both
      avoid it avoids too, apart from the fixed words it adds. */
  lemma SummaryAvoids(content: string, title: string, bad: set<char>)
    requires Avoids(content, bad) && Avoids(title, bad)
    requires Avoids(Lead, bad) && Avoids(Separator, bad) && Avoids(Tail, bad)
    ensures Avoids(GenerateSummary(content, title), bad)
  {
    var ss := Sentences(content);
    if |ss| > 0 {
      SentencesAvoid(content, bad);
      JoinedAvoids(ss, bad);
    } else {
      assert GenerateSummary(content, title) == Lead + title + Tail;
    }
  }

  lemma JoinedAvoids(ss: seq<string>, bad: set<char>)
    requires forall k :: 0 <= k < |ss| ==> Avoids(ss[k], bad)
    requires Avoids(Separator, bad)
    ensures Avoids(Join(ss, Separator) + ".", bad)
  {
    assert Separator == ['.', ' '];
    JoinAvoids(ss, Separator, bad);
    var j := Join(ss, Separator);
    assert j + "." == j + [Separator[0]];
  }

  lemma SentencesAvoid(content: string, bad: set<char>)
    requires Avoids(content, bad)
    ensures var ss := Sentences(content); forall k :: 0 <= k < |ss| ==> Avoids(ss[k], bad)
  {
    var pieces := Split(content, SentenceEnds);
    SplitAvoids(content, SentenceEnds, bad);
    var kept := Take(Filter(pieces, LongEnough), MaxSentences);
    KeptAvoids(pieces, LongEnough, MaxSentences, bad);
    var trimmed := TrimAll(kept);
    assert forall k :: 0 <= k < |trimmed| ==> Avoids(trimmed[k], bad);
    assert Sentences(content) == trimmed;
  }
}
