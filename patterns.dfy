/** The fixed regular expressions that `htmlToText` (route.ts) hands to
    `String.prototype.replace` with the `g` flag, each written as a scanner
    that decides whether, and how far, the pattern matches at the start of a
    string, together with the global left-to-right replacement itself.

    Each pattern's backtracking has a single outcome, which is what makes a
    scanner exact:
    - in `<name\b[\s\S]*?<\/name[\s\S]*?>` the lazy gaps end at the first
      closing name and the first `>` after it; if no `>` follows the first
      closing name, none follows a later one either;
    - `[^>]*>` can only end at the first `>`;
    - in `<br\s*\/?>` and `\n{3,}` the greedy runs are the only runs after
      which the rest can match. */
module Patterns {
  import opened Text

  datatype Pattern =
    | Element(name: string)   // /<name\b[\s\S]*?<\/name[\s\S]*?>/gi   a whole script or style block
    | OpenTag(name: string)   // /<name\b[^>]*>/gi                     an orphaned opening tag
    | CloseTag(name: string)  // /<\/name[\s\S]*?>/gi                  an orphaned closing tag
    | LineBreak               // /<br\s*\/?>/gi
    | EndTag(name: string)    // /<\/name>/gi
    | HeadingEnd              // /<\/h[1-6]>/gi
    | AnyTag                  // /<[^>]*>/g
    | Char(c: char)           // /c/g
    | NewlineRun              // /\n{3,}/g

  /** `\b` right after a word character, before position `i`. */
  predicate BoundaryAt(s: string, i: nat) {
    i >= |s| || !IsWordChar(s[i])
  }

  /** Length of the match of `p` anchored at the start of `s`, if any. */
  function MatchLen(s: string, p: Pattern): (r: Option<nat>)
    ensures r.Some? ==> 0 < r.value <= |s|
  {
    match p
    case Element(name) =>
      var open := |name| + 1;
      if !CiStartsWith(s, "<" + name) || !BoundaryAt(s, open) then None
      else
        (match FindCi(s, "</" + name, open)
         case None => None
         case Some(k) =>
           (match FindChar(s, '>', k + |name| + 2)
            case None => None
            case Some(g) => Some(g + 1)))
    case OpenTag(name) =>
      var open := |name| + 1;
      if !CiStartsWith(s, "<" + name) || !BoundaryAt(s, open) then None
      else
        (match FindChar(s, '>', open)
         case None => None
         case Some(g) => Some(g + 1))
    case CloseTag(name) =>
      if !CiStartsWith(s, "</" + name) then None
      else
        (match FindChar(s, '>', |name| + 2)
         case None => None
         case Some(g) => Some(g + 1))
    case LineBreak =>
      if !CiStartsWith(s, "<br") then None
      else
        var j := 3 + LeadingWhile(s[3..], IsSpace);
        if j + 1 < |s| && s[j] == '/' && s[j + 1] == '>' then Some(j + 2)
        else if j < |s| && s[j] == '>' then Some(j + 1)
        else None
    case EndTag(name) =>
      if CiStartsWith(s, "</" + name + ">") then Some(|name| + 3) else None
    case HeadingEnd =>
      if |s| >= 5 && s[0] == '<' && s[1] == '/' && LowerChar(s[2]) == 'h'
         && '1' <= s[3] <= '6' && s[4] == '>'
      then Some(5) else None
    case AnyTag =>
      if s == [] || s[0] != '<' then None
      else
        (match FindChar(s, '>', 1)
         case None => None
         case Some(g) => Some(g + 1))
    case Char(c) =>
      if s != [] && s[0] == c then Some(1) else None
    case NewlineRun =>
      var n := LeadingWhile(s, IsNewline);
      if n >= 3 then Some(n) else None
  }

  /** `s.replace(p, rep)` with the `g` flag: scan from the left, replace each
      match and resume after it, otherwise keep the character and move on. */
  function ReplaceAll(s: string, p: Pattern, rep: string): string
    decreases |s|
  {
    if s == [] then []
    else
      match MatchLen(s, p)
      case Some(n) => rep + ReplaceAll(s[n..], p, rep)
      case None => [s[0]] + ReplaceAll(s[1..], p, rep)
  }

  /** `p` matches nowhere in `s`. */
  predicate NoMatchIn(s: string, p: Pattern) {
    forall i :: 0 <= i < |s| ==> MatchLen(s[i..], p).None?
  }

  /** Every pattern except a newline run or a single character starts with `<`. */
  predicate IsMarkup(p: Pattern) {
    !p.Char? && !p.NewlineRun?
  }

  lemma MarkupNeedsAngle(s: string, p: Pattern)
    requires IsMarkup(p)
    requires s != [] && s[0] != '<'
    ensures MatchLen(s, p).None?
  {
    match p
    case Element(name) => CiStartsWithHead(s, "<" + name);
    case OpenTag(name) => CiStartsWithHead(s, "<" + name);
    case CloseTag(name) => CiStartsWithHead(s, "</" + name);
    case LineBreak => CiStartsWithHead(s, "<br");
    case EndTag(name) => CiStartsWithHead(s, "</" + name + ">");
    case HeadingEnd =>
    case AnyTag =>
  }

  /** A replacement that finds no match leaves the text unchanged. */
  lemma {:induction false} ReplaceWithoutMatch(s: string, p: Pattern, rep: string)
    decreases |s|
    requires NoMatchIn(s, p)
    ensures ReplaceAll(s, p, rep) == s
  {
    if s != [] {
      assert MatchLen(s[0..], p).None?;
      assert s[0..] == s;
      forall i | 0 <= i < |s[1..]| ensures MatchLen(s[1..][i..], p).None? {
        assert s[1..][i..] == s[i + 1..];
      }
      ReplaceWithoutMatch(s[1..], p, rep);
    }
  }

  /** Markup patterns find nothing in text without `<`. */
  lemma MarkupAbsentWithoutAngle(s: string, p: Pattern)
    requires IsMarkup(p) && Avoids(s, {'<'})
    ensures NoMatchIn(s, p)
  {
    forall i | 0 <= i < |s| ensures MatchLen(s[i..], p).None? {
      MarkupNeedsAngle(s[i..], p);
    }
  }

  /** Removing matches never lengthens the text, and leaves its length
      unchanged exactly when there was nothing to remove, and then the text
      itself unchanged. */
  lemma {:induction false} RemovalShrinks(s: string, p: Pattern)
    decreases |s|
    ensures |ReplaceAll(s, p, [])| <= |s|
    ensures |ReplaceAll(s, p, [])| == |s| ==> NoMatchIn(s, p) && ReplaceAll(s, p, []) == s
    ensures NoMatchIn(s, p) ==> ReplaceAll(s, p, []) == s
  {
    if NoMatchIn(s, p) {
      ReplaceWithoutMatch(s, p, []);
    }
    if s != [] {
      match MatchLen(s, p)
      case Some(n) =>
        RemovalShrinks(s[n..], p);
      case None =>
        RemovalShrinks(s[1..], p);
        if |ReplaceAll(s, p, [])| == |s| {
          forall i | 0 <= i < |s| ensures MatchLen(s[i..], p).None? {
            if i == 0 { assert s[0..] == s; } else { assert s[1..][i - 1..] == s[i..]; }
          }
        }
    }
  }

  /** The result is made of characters of the text and of the replacement. */
  lemma {:induction false} ReplaceAvoids(s: string, p: Pattern, rep: string, bad: set<char>)
    decreases |s|
    requires Avoids(s, bad) && Avoids(rep, bad)
    ensures Avoids(ReplaceAll(s, p, rep), bad)
  {
    if s != [] {
      match MatchLen(s, p)
      case Some(n) => ReplaceAvoids(s[n..], p, rep, bad);
      case None => ReplaceAvoids(s[1..], p, rep, bad);
    }
  }

  /** Replacing one character by text without it removes it everywhere. */
  lemma {:induction false} ReplaceCharRemoves(s: string, c: char, rep: string, bad: set<char>)
    decreases |s|
    requires Avoids(s, bad)
    requires Avoids(rep, bad + {c})
    ensures Avoids(ReplaceAll(s, Char(c), rep), bad + {c})
  {
    if s != [] {
      ReplaceCharRemoves(s[1..], c, rep, bad);
      var t := ReplaceAll(s[1..], Char(c), rep);
      if s[0] == c {
        assert ReplaceAll(s, Char(c), rep) == rep + t;
      } else {
        assert ReplaceAll(s, Char(c), rep) == [s[0]] + t;
      }
    }
  }

  /** No three consecutive newlines. */
  predicate NoTripleNewline(s: string) {
    forall i :: 0 <= i < |s| - 2 ==> !(s[i] == '\n' && s[i + 1] == '\n' && s[i + 2] == '\n')
  }

  lemma LeadingNewlinesCons(c: char, t: string)
    ensures LeadingWhile([c] + t, IsNewline) == if c == '\n' then 1 + LeadingWhile(t, IsNewline) else 0
  {
    assert ([c] + t)[1..] == t;
  }

  lemma NoTripleCons(c: char, t: string)
    requires NoTripleNewline(t)
    requires c == '\n' ==> LeadingWhile(t, IsNewline) < 2
    ensures NoTripleNewline([c] + t)
  {
    var r := [c] + t;
    forall i | 0 <= i < |r| - 2 ensures !(r[i] == '\n' && r[i + 1] == '\n' && r[i + 2] == '\n') {
      if i > 0 {
        assert r[i] == t[i - 1] && r[i + 1] == t[i] && r[i + 2] == t[i + 1];
      } else if c == '\n' {
        assert r[1] == t[0] && r[2] == t[1];
      }
    }
  }

  /** `replace(/\n{3,}/g, "\n\n")` leaves no run of three newlines, and
      starts with as many newlines as the text, capped at two. */
  lemma {:induction false} CollapseNewlines(s: string)
    decreases |s|
    ensures NoTripleNewline(ReplaceAll(s, NewlineRun, "\n\n"))
    ensures LeadingWhile(ReplaceAll(s, NewlineRun, "\n\n"), IsNewline) == Min(LeadingWhile(s, IsNewline), 2)
  {
    var r := ReplaceAll(s, NewlineRun, "\n\n");
    if s != [] {
      var n := LeadingWhile(s, IsNewline);
      if n >= 3 {
        var t := ReplaceAll(s[n..], NewlineRun, "\n\n");
        CollapseNewlines(s[n..]);
        assert r == ['\n'] + (['\n'] + t);
        LeadingNewlinesCons('\n', t);
        NoTripleCons('\n', t);
        LeadingNewlinesCons('\n', ['\n'] + t);
        NoTripleCons('\n', ['\n'] + t);
      } else {
        var t := ReplaceAll(s[1..], NewlineRun, "\n\n");
        CollapseNewlines(s[1..]);
        assert r == [s[0]] + t;
        LeadingNewlinesCons(s[0], t);
        NoTripleCons(s[0], t);
      }
    }
  }

  lemma NoTripleSlice(s: string, a: nat, b: nat)
    requires a <= b <= |s| && NoTripleNewline(s)
    ensures NoTripleNewline(s[a..b])
  {
    var t := s[a..b];
    forall i | 0 <= i < |t| - 2
      ensures !(t[i] == '\n' && t[i + 1] == '\n' && t[i + 2] == '\n')
    {
      assert t[i] == s[a + i] && t[i + 1] == s[a + i + 1] && t[i + 2] == s[a + i + 2];
    }
  }
}
