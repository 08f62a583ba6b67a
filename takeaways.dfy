/** `extractKeyTakeaways` (route.ts): lines that look important — a marker
    word, a numbered item or a bullet — with their list marker removed, at
    most five of them; when no line qualifies, up to three long sentences
    of the content instead. */
module Takeaways {
  import opened Text

  const MaxTakeaways: nat := 5

  /** A line qualifies only when its trimmed length lies strictly between
      these two. */
  const MinLine: nat := 30
  const MaxLine: nat := 200

  /** The sentence fallback: `split(/[.!]/)`, a trimmed length strictly
      between 40 and 200, and at most three sentences. */
  const FallbackEnds: set<char> := {'.', '!'}
  const MinSentence: nat := 40
  const MaxSentences: nat := 3

  /** The `includes` tests, which are case-sensitive. */
  predicate MentionsMarker(t: string) {
    Contains(t, "important") || Contains(t, "note:") || Contains(t, "remember")
    || Contains(t, "must") || Contains(t, "should") || Contains(t, "recommended")
  }

  /** `/^\d+\.\s/`: the digit run is greedy and only a `.` may follow it. */
  predicate NumberedItem(t: string) {
    var n := LeadingWhile(t, IsDigit);
    n >= 1 && n + 1 < |t| && t[n] == '.' && IsSpace(t[n + 1])
  }

  /** `/^[-*]\s/`. */
  predicate BulletItem(t: string) {
    |t| >= 2 && (t[0] == '-' || t[0] == '*') && IsSpace(t[1])
  }

  /** The test a trimmed line must pass to become a takeaway. */
  predicate Qualifies(t: string) {
    MinLine < |t| < MaxLine && (MentionsMarker(t) || NumberedItem(t) || BulletItem(t))
  }

  /** `replace(/^[-*]\s*\/, "")`. */
  function StripBullet(t: string): (r: string)
    ensures IsSuffix(r, t)
  {
    if t != [] && (t[0] == '-' || t[0] == '*') then t[1 + LeadingWhile(t[1..], IsSpace)..] else t
  }

  /** `replace(/^\d+\.\s*\/, "")`. */
  function StripNumber(t: string): (r: string)
    ensures IsSuffix(r, t)
  {
    var n := LeadingWhile(t, IsDigit);
    if n >= 1 && n < |t| && t[n] == '.' then t[n + 1 + LeadingWhile(t[n + 1..], IsSpace)..] else t
  }

  /** The list marker removed from a qualifying line. */
  function Clean(t: string): (r: string)
    ensures IsSuffix(r, t)
  {
    var b := StripBullet(t);
    var r := StripNumber(b);
    SuffixOfSuffix(t, b, r);
    r
  }

  /** Every qualifying line, cleaned, in order. */
  function Marked(ts: seq<string>): seq<string>
    decreases |ts|
  {
    if ts == [] then []
    else
      var t := ts[|ts| - 1];
      Marked(ts[..|ts| - 1]) + (if Qualifies(t) then [Clean(t)] else [])
  }

  predicate SentenceFits(s: string) {
    MinSentence < |Trim(s)| < MaxLine
  }

  /** The split, filter and slice chain of the fallback. */
  function FallbackSentences(content: string): seq<string> {
    Take(Filter(Split(content, FallbackEnds), SentenceFits), MaxSentences)
  }

  /** The lines of `content`, trimmed. */
  function TrimmedLines(content: string): seq<string> {
    TrimAll(Split(content, {'\n'}))
  }

  /** What `extractKeyTakeaways` returns. */
  function KeyTakeaways(content: string): seq<string> {
    var marked := Take(Marked(TrimmedLines(content)), MaxTakeaways);
    Take(if marked == [] then TrimAll(FallbackSentences(content)) else marked, MaxTakeaways)
  }

  /** `extractKeyTakeaways`: the line loop, then the sentence loop when the
      line loop found nothing, then the cut to five. */
  method ExtractKeyTakeaways(content: string) returns (takeaways: seq<string>)
    ensures takeaways == KeyTakeaways(content)
  {
    var lines := Split(content, {'\n'});
    takeaways := MarkerLoop(lines);
    if |takeaways| == 0 {
      takeaways := TrimEach(FallbackSentences(content));
    }
    takeaways := Take(takeaways, MaxTakeaways);
  }

  /** The fallback's loop, which pushes each sentence trimmed. */
  method TrimEach(sentences: seq<string>) returns (trimmed: seq<string>)
    ensures trimmed == TrimAll(sentences)
  {
    trimmed := [];
    for j := 0 to |sentences|
      invariant trimmed == TrimAll(sentences[..j])
    {
      assert TrimAll(sentences[..j + 1]) == TrimAll(sentences[..j]) + [Trim(sentences[j])];
      trimmed := trimmed + [Trim(sentences[j])];
    }
    assert sentences[..|sentences|] == sentences;
  }

  /** The line loop, which stops as soon as it holds five takeaways. */
  method MarkerLoop(lines: seq<string>) returns (takeaways: seq<string>)
    ensures takeaways == Take(Marked(TrimAll(lines)), MaxTakeaways)
  {
    takeaways := [];
    ghost var ts := TrimAll(lines);
    for i := 0 to |lines|
      invariant takeaways == Marked(ts[..i]) && |takeaways| < MaxTakeaways
    {
      var trimmed := Trim(lines[i]);
      MarkedStep(ts, i);
      if |trimmed| > MinLine && |trimmed| < MaxLine {
        if MentionsMarker(trimmed) || NumberedItem(trimmed) || BulletItem(trimmed) {
          takeaways := takeaways + [StripNumber(StripBullet(trimmed))];
          if |takeaways| >= MaxTakeaways {
            FullAt(ts, i + 1);
            break;
          }
        }
      }
    }
    if |takeaways| < MaxTakeaways {
      assert ts[..|lines|] == ts;
      assert Take(Marked(ts), MaxTakeaways) == Marked(ts);
    }
  }

  /** Once five are collected, later lines change nothing. */
  lemma FullAt(ts: seq<string>, i: nat)
    requires i <= |ts| && |Marked(ts[..i])| == MaxTakeaways
    ensures Take(Marked(ts), MaxTakeaways) == Marked(ts[..i])
  {
    MarkedPrefix(ts, i);
  }

  lemma MarkedStep(ts: seq<string>, i: nat)
    requires i < |ts|
    ensures Marked(ts[..i + 1]) == Marked(ts[..i]) + (if Qualifies(ts[i]) then [Clean(ts[i])] else [])
  {
    assert ts[..i + 1][..i] == ts[..i];
  }

  // ---------------------------------------------------------------------
  // Properties of the line path

  /** `x` is the cleaned form of a qualifying line of `ts`. */
  predicate CleanedFrom(ts: seq<string>, x: string) {
    exists t :: t in ts && Qualifies(t) && x == Clean(t)
  }

  /** Only qualifying lines, cleaned, are collected. */
  lemma {:induction false} MarkedSound(ts: seq<string>, x: string)
    requires x in Marked(ts)
    decreases |ts|
    ensures CleanedFrom(ts, x)
  {
    var init, t := ts[..|ts| - 1], ts[|ts| - 1];
    if x in Marked(init) {
      MarkedSound(init, x);
      var u :| u in init && Qualifies(u) && x == Clean(u);
      assert u in ts;
    } else {
      assert Qualifies(t) && x == Clean(t);
    }
  }

  /** Every qualifying line is collected. */
  lemma {:induction false} MarkedComplete(ts: seq<string>, t: string)
    requires t in ts && Qualifies(t)
    decreases |ts|
    ensures Clean(t) in Marked(ts)
  {
    var init := ts[..|ts| - 1];
    if t != ts[|ts| - 1] {
      assert ts == init + [ts[|ts| - 1]];
      MarkedComplete(init, t);
    }
  }

  /** The collection over a prefix of the lines is a prefix of the whole. */
  lemma {:induction false} MarkedPrefix(ts: seq<string>, i: nat)
    requires i <= |ts|
    decreases |ts|
    ensures Marked(ts[..i]) <= Marked(ts)
  {
    if i < |ts| {
      var init := ts[..|ts| - 1];
      assert ts[..i] == init[..i];
      MarkedPrefix(init, i);
    } else {
      assert ts[..i] == ts;
    }
  }

  /** Nothing is collected exactly when no line qualifies. */
  lemma MarkedEmpty(ts: seq<string>)
    ensures Marked(ts) == [] <==> forall t :: t in ts ==> !Qualifies(t)
  {
    if Marked(ts) != [] {
      MarkedSound(ts, Marked(ts)[0]);
    }
    forall t | t in ts && Qualifies(t) ensures Marked(ts) != [] {
      MarkedComplete(ts, t);
    }
  }

  /** A line with no list marker in front is kept whole. */
  lemma CleanKeepsPlain(t: string)
    requires t == [] || (t[0] != '-' && t[0] != '*' && !IsDigit(t[0]))
    ensures Clean(t) == t
  {
  }

  /** A numbered item loses its digits, its `.` and all the whitespace
      after them; a bullet loses its `-` or `*` and all the whitespace after
      it. Either way at least two characters go. */
  lemma CleanRemovesMarker(t: string)
    requires NumberedItem(t) || BulletItem(t)
    ensures |Clean(t)| <= |t| - 2
    ensures NumberedItem(t) ==>
      |Clean(t)| <= |t| - LeadingWhile(t, IsDigit) - 1 - LeadingWhile(t[LeadingWhile(t, IsDigit) + 1..], IsSpace)
    ensures BulletItem(t) ==> |Clean(t)| <= |t| - 1 - LeadingWhile(t[1..], IsSpace)
  {
    if t[0] == '-' || t[0] == '*' {
      BulletRemoved(t);
    } else {
      NumberRemoved(t);
    }
  }

  lemma BulletRemoved(t: string)
    requires BulletItem(t)
    ensures |StripBullet(t)| == |t| - 1 - LeadingWhile(t[1..], IsSpace)
    ensures |Clean(t)| <= |t| - 1 - LeadingWhile(t[1..], IsSpace)
    ensures !NumberedItem(t)
  {
    assert LeadingWhile(t[1..], IsSpace) >= 1;
    assert !IsDigit(t[0]);
  }

  lemma NumberRemoved(t: string)
    requires NumberedItem(t) && t[0] != '-' && t[0] != '*'
    ensures |Clean(t)| == |t| - LeadingWhile(t, IsDigit) - 1 - LeadingWhile(t[LeadingWhile(t, IsDigit) + 1..], IsSpace)
    ensures LeadingWhile(t[LeadingWhile(t, IsDigit) + 1..], IsSpace) >= 1
    ensures !BulletItem(t)
  {
    var n := LeadingWhile(t, IsDigit);
    var rest := t[n + 1..];
    var sp := LeadingWhile(rest, IsSpace);
    assert rest[0] == t[n + 1];
    assert sp >= 1;
    assert StripBullet(t) == t;
    assert Clean(t) == StripNumber(t) == t[n + 1 + sp..];
  }

  // ---------------------------------------------------------------------
  // Properties of the whole

  /** When a line qualifies, the takeaways are the first five qualifying
      lines, each cleaned of its list marker, and none comes from the
      fallback. */
  lemma LinePath(content: string)
    requires exists t :: t in TrimmedLines(content) && Qualifies(t)
    ensures var r := KeyTakeaways(content);
      r != [] && r == Take(Marked(TrimmedLines(content)), MaxTakeaways)
      && forall k :: 0 <= k < |r| ==> CleanedFrom(TrimmedLines(content), r[k])
  {
    var ts := TrimmedLines(content);
    var t :| t in ts && Qualifies(t);
    FirstMarked(ts, t);
    var m := Take(Marked(ts), MaxTakeaways);
    assert KeyTakeaways(content) == Take(m, MaxTakeaways);
  }

  /** With a qualifying line among `ts`, the list of the first five
      collected entries is not empty (an entry itself can be: cleaning
      `"-"`, spaces and `"1."` leaves nothing), each entry comes from a
      qualifying line, and a second cut to five leaves the list as it is. */
  lemma FirstMarked(ts: seq<string>, t: string)
    requires t in ts && Qualifies(t)
    ensures var m := Take(Marked(ts), MaxTakeaways);
      m != [] && Take(m, MaxTakeaways) == m
      && forall k :: 0 <= k < |m| ==> CleanedFrom(ts, m[k])
  {
    MarkedComplete(ts, t);
    var all := Marked(ts);
    var m := Take(all, MaxTakeaways);
    assert m == all[..|m|];
    assert Take(m, MaxTakeaways) == m[..|m|];
    forall k | 0 <= k < |m| ensures CleanedFrom(ts, m[k]) {
      assert m[k] == all[k];
      MarkedSound(ts, all[k]);
    }
  }

  /** The fallback runs only when no line qualifies. */
  lemma FallbackPath(content: string)
    requires forall t :: t in TrimmedLines(content) ==> !Qualifies(t)
    ensures KeyTakeaways(content) == TrimAll(FallbackSentences(content))
  {
    MarkedEmpty(TrimmedLines(content));
  }

  /** `x` is the trimmed form of a sentence piece of the content that fits
      the window. */
  predicate SentenceOf(content: string, x: string) {
    exists p :: p in Split(content, FallbackEnds) && SentenceFits(p) && x == Trim(p)
  }

  /** The fallback yields at most three sentences, each trimmed, of a length
      strictly between 40 and 200, free of `.` and `!`, and each taken from
      the content. */
  lemma FallbackShape(content: string)
    ensures var ss := TrimAll(FallbackSentences(content));
      |ss| <= MaxSentences
      && forall k :: 0 <= k < |ss| ==>
           IsTrimmed(ss[k]) && MinSentence < |ss[k]| < MaxLine
           && Avoids(ss[k], FallbackEnds) && SentenceOf(content, ss[k])
  {
    var pieces := Split(content, FallbackEnds);
    var kept := FallbackSentences(content);
    assert kept == Take(Filter(pieces, SentenceFits), MaxSentences);
    KeptFrom(pieces, SentenceFits, MaxSentences);
    KeptAvoids(pieces, SentenceFits, MaxSentences, FallbackEnds);
    var ss := TrimAll(kept);
    forall k | 0 <= k < |ss| ensures SentenceOf(content, ss[k]) && MinSentence < |ss[k]| < MaxLine {
      assert ss[k] == Trim(kept[k]) && kept[k] in pieces && SentenceFits(kept[k]);
    }
  }

  /** There are never more than five takeaways. */
  lemma AtMostFive(content: string)
    ensures |KeyTakeaways(content)| <= MaxTakeaways
  {
  }

  /** Every takeaway is a piece of the content: whatever the content avoids,
      every takeaway avoids. */
  lemma TakeawaysAvoid(content: string, bad: set<char>)
    requires Avoids(content, bad)
    ensures var r := KeyTakeaways(content); forall k :: 0 <= k < |r| ==> Avoids(r[k], bad)
  {
    var ts := TrimmedLines(content);
    LinesAvoid(content, bad);
    var m := Take(Marked(ts), MaxTakeaways);
    if m != [] {
      forall k | 0 <= k < |m| ensures Avoids(m[k], bad) {
        assert m[k] in Marked(ts);
        MarkedSound(ts, m[k]);
        var t :| t in ts && Qualifies(t) && m[k] == Clean(t);
        SuffixAvoids(t, Clean(t), bad);
      }
      assert KeyTakeaways(content) == m;
    } else {
      var pieces := Split(content, FallbackEnds);
      SplitAvoids(content, FallbackEnds, bad);
      KeptAvoids(pieces, SentenceFits, MaxSentences, bad);
      assert KeyTakeaways(content) == TrimAll(Take(Filter(pieces, SentenceFits), MaxSentences));
    }
  }

  lemma LinesAvoid(content: string, bad: set<char>)
    requires Avoids(content, bad)
    ensures forall t :: t in TrimmedLines(content) ==> Avoids(t, bad)
  {
    var lines := Split(content, {'\n'});
    SplitAvoids(content, {'\n'}, bad);
    forall k | 0 <= k < |lines| ensures Avoids(Trim(lines[k]), bad) {
      TrimAvoids(lines[k], bad);
    }
    assert forall k :: 0 <= k < |lines| ==> TrimmedLines(content)[k] == Trim(lines[k]);
  }
}
