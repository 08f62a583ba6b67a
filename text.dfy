/** Characters and string helpers shared by every stage of the extraction
    pipeline. Strings are sequences of Unicode scalar values. Letter case is
    mapped on ASCII only, which is exactly what a regular expression with the
    `i` flag (and no `u` flag) does, and an approximation of JavaScript's
    `toUpperCase`/`toLowerCase` on non-ASCII letters. */
module Text {

  datatype Option<+T> = None | Some(value: T)

  function Min(a: int, b: int): int { if a <= b then a else b }

  /** ECMAScript WhiteSpace and LineTerminator code points: the characters
      matched by `\s` and removed by `String.prototype.trim`. */
  predicate IsSpace(c: char) {
    c == ' ' || c == '\t' || c == '\n' || c == '\r' || c == '\U{B}' || c == '\U{C}'
    || c == '\U{A0}' || c == '\U{1680}' || ('\U{2000}' <= c <= '\U{200A}')
    || c == '\U{2028}' || c == '\U{2029}' || c == '\U{202F}' || c == '\U{205F}'
    || c == '\U{3000}' || c == '\U{FEFF}'
  }

  /** The characters that `.` in a regular expression does not match. */
  predicate IsLineTerminator(c: char) {
    c == '\n' || c == '\r' || c == '\U{2028}' || c == '\U{2029}'
  }

  predicate IsUpper(c: char) { 'A' <= c <= 'Z' }
  predicate IsLower(c: char) { 'a' <= c <= 'z' }
  predicate IsDigit(c: char) { '0' <= c <= '9' }

  /** The `\w` class, which `\b` is defined by. */
  predicate IsWordChar(c: char) { IsUpper(c) || IsLower(c) || IsDigit(c) || c == '_' }

  function LowerChar(c: char): char { if IsUpper(c) then (c as int + 32) as char else c }
  function UpperChar(c: char): char { if IsLower(c) then (c as int - 32) as char else c }

  function ToLower(s: string): string { seq(|s|, i requires 0 <= i < |s| => LowerChar(s[i])) }
  function ToUpper(s: string): string { seq(|s|, i requires 0 <= i < |s| => UpperChar(s[i])) }

  /** `s === s.toUpperCase()` holds exactly for the strings with no lower-case
      letter: digits, punctuation and empty strings included. */
  lemma UpperFixedIffNoLower(s: string)
    ensures s == ToUpper(s) <==> forall i :: 0 <= i < |s| ==> !IsLower(s[i])
  {
    if s == ToUpper(s) {
      forall i | 0 <= i < |s| ensures !IsLower(s[i]) {
        assert ToUpper(s)[i] == UpperChar(s[i]);
      }
    }
  }

  /** No character of `s` belongs to `bad`. */
  predicate Avoids(s: string, bad: set<char>) {
    forall i :: 0 <= i < |s| ==> s[i] !in bad
  }

  /** The defence-in-depth guarantee: no raw angle bracket. */
  predicate NoAngle(s: string) { Avoids(s, {'<', '>'}) }

  /** Case-insensitive prefix test against a pattern written in lower case. */
  predicate CiStartsWith(s: string, lit: string) {
    |lit| <= |s| && ToLower(s[..|lit|]) == lit
  }

  lemma CiStartsWithHead(s: string, lit: string)
    requires lit != []
    ensures CiStartsWith(s, lit) ==> LowerChar(s[0]) == lit[0]
  {
    if CiStartsWith(s, lit) {
      assert ToLower(s[..|lit|])[0] == LowerChar(s[0]);
    }
  }

  /** Case-sensitive substring test (`String.prototype.includes`). */
  predicate Contains(s: string, sub: string)
    decreases |s|
  {
    sub <= s || (s != [] && Contains(s[1..], sub))
  }

  /** An occurrence at a known position is found. */
  lemma {:induction false} ContainsAt(s: string, sub: string, k: nat)
    requires k <= |s| && sub <= s[k..]
    decreases k
    ensures Contains(s, sub)
  {
    if k > 0 {
      assert s[1..][k - 1..] == s[k..];
      ContainsAt(s[1..], sub, k - 1);
    }
  }

  /** `includes` on any of several words. */
  predicate ContainsAny(s: string, words: seq<string>) {
    exists k :: 0 <= k < |words| && Contains(s, words[k])
  }

  /** First index at or after `from` holding `c`. */
  function FindChar(s: string, c: char, from: nat): (r: Option<nat>)
    decreases |s| - from
    ensures r.Some? ==> from <= r.value < |s| && s[r.value] == c
    ensures r.Some? ==> forall j :: from <= j < r.value ==> s[j] != c
    ensures r.None? ==> forall j :: from <= j < |s| ==> s[j] != c
  {
    if from >= |s| then None
    else if s[from] == c then Some(from)
    else FindChar(s, c, from + 1)
  }

  /** First index at or after `from` where `lit` occurs, ignoring case. */
  function FindCi(s: string, lit: string, from: nat): (r: Option<nat>)
    decreases |s| - from
    ensures r.Some? ==> from <= r.value <= |s| && CiStartsWith(s[r.value..], lit)
    ensures r.Some? ==> forall j :: from <= j < r.value ==> !CiStartsWith(s[j..], lit)
    ensures r.None? ==> forall j :: from <= j <= |s| ==> !CiStartsWith(s[j..], lit)
  {
    if from > |s| then None
    else if CiStartsWith(s[from..], lit) then Some(from)
    else FindCi(s, lit, from + 1)
  }

  /** The least `i` in `[from, hi]` satisfying `p`. */
  function Leftmost(p: nat -> bool, from: nat, hi: nat): (r: Option<nat>)
    decreases hi + 1 - from
    ensures r.Some? ==> from <= r.value <= hi && p(r.value)
    ensures r.Some? ==> forall i :: from <= i < r.value ==> !p(i)
    ensures r.None? ==> forall i :: from <= i <= hi ==> !p(i)
  {
    if from > hi then None
    else if p(from) then Some(from)
    else Leftmost(p, from + 1, hi)
  }

  /** The greatest `i` in `[lo, hi]` satisfying `p`. */
  function Rightmost(p: nat -> bool, lo: nat, hi: nat): (r: Option<nat>)
    decreases hi
    ensures r.Some? ==> lo <= r.value <= hi && p(r.value)
    ensures r.Some? ==> forall i :: r.value < i <= hi ==> !p(i)
    ensures r.None? ==> forall i :: lo <= i <= hi ==> !p(i)
  {
    if hi < lo then None
    else if p(hi) then Some(hi)
    else if hi == lo then None
    else Rightmost(p, lo, hi - 1)
  }

  predicate IsNewline(c: char) { c == '\n' }
  predicate IsHash(c: char) { c == '#' }

  /** Length of the run of characters passing `p` at the start of `s`: what
      a greedy `^x*` for a character class `x` consumes. */
  function LeadingWhile(s: string, p: char -> bool): (n: nat)
    ensures n <= |s|
    ensures forall i :: 0 <= i < n ==> p(s[i])
    ensures n < |s| ==> !p(s[n])
  {
    if s != [] && p(s[0]) then 1 + LeadingWhile(s[1..], p) else 0
  }

  /** Length of the run of whitespace at the end of `s`. */
  function TrailingSpaces(s: string): (n: nat)
    ensures n <= |s|
    ensures forall i :: |s| - n <= i < |s| ==> IsSpace(s[i])
    ensures n < |s| ==> !IsSpace(s[|s| - n - 1])
  {
    if s != [] && IsSpace(s[|s| - 1]) then 1 + TrailingSpaces(s[..|s| - 1]) else 0
  }

  predicate IsTrimmed(s: string) {
    s == [] || (!IsSpace(s[0]) && !IsSpace(s[|s| - 1]))
  }

  /** `String.prototype.trim`: the slice of `s` between its leading and
      trailing whitespace. */
  function Trim(s: string): (r: string)
    ensures IsTrimmed(r)
    ensures LeadingWhile(s, IsSpace) + |r| <= |s| && r == s[LeadingWhile(s, IsSpace)..LeadingWhile(s, IsSpace) + |r|]
    ensures r == [] <==> forall i :: 0 <= i < |s| ==> IsSpace(s[i])
    ensures IsTrimmed(s) ==> r == s
  {
    var a := LeadingWhile(s, IsSpace);
    if a == |s| then []
    else
      var b := TrailingSpaces(s);
      assert !IsSpace(s[a]);
      s[a..|s| - b]
  }

  lemma TrimAvoids(s: string, bad: set<char>)
    requires Avoids(s, bad)
    ensures Avoids(Trim(s), bad)
  {
    var r, a := Trim(s), LeadingWhile(s, IsSpace);
    forall i | 0 <= i < |r| ensures r[i] !in bad {
      assert r[i] == s[a + i];
    }
  }

  /** `String.prototype.split` on every character of `seps` (a single
      character, or a regular-expression character class). */
  function Split(s: string, seps: set<char>): (r: seq<string>)
    decreases |s|
    ensures |r| >= 1
    ensures forall k :: 0 <= k < |r| ==> Avoids(r[k], seps)
  {
    if s == [] then [[]]
    else
      var rest := Split(s[1..], seps);
      if s[0] in seps then [[]] + rest
      else [[s[0]] + rest[0]] + rest[1..]
  }

  /** `Array.prototype.join`. */
  function Join(xs: seq<string>, sep: string): string
    decreases |xs|
  {
    if xs == [] then []
    else if |xs| == 1 then xs[0]
    else xs[0] + sep + Join(xs[1..], sep)
  }

  /** Splitting on one character and joining with it again gives back the
      text: no character is lost or invented by the line split. */
  lemma {:induction false} SplitJoin(s: string, c: char)
    decreases |s|
    ensures Join(Split(s, {c}), [c]) == s
  {
    if s != [] {
      var rest := Split(s[1..], {c});
      SplitJoin(s[1..], c);
      if s[0] == c {
        assert Split(s, {c}) == [[]] + rest;
      } else {
        assert Split(s, {c}) == [[s[0]] + rest[0]] + rest[1..];
        if |rest| > 1 {
          assert rest == [rest[0]] + rest[1..];
        }
      }
    }
  }

  lemma {:induction false} SplitAvoids(s: string, seps: set<char>, bad: set<char>)
    decreases |s|
    requires Avoids(s, bad)
    ensures forall k :: 0 <= k < |Split(s, seps)| ==> Avoids(Split(s, seps)[k], bad)
  {
    if s != [] {
      SplitAvoids(s[1..], seps, bad);
    }
  }

  lemma {:induction false} JoinAvoids(xs: seq<string>, sep: string, bad: set<char>)
    decreases |xs|
    requires forall k :: 0 <= k < |xs| ==> Avoids(xs[k], bad)
    requires Avoids(sep, bad)
    ensures Avoids(Join(xs, sep), bad)
  {
    if |xs| > 1 {
      JoinAvoids(xs[1..], sep, bad);
    }
  }

  /** `s.substring(0, n) + (s.length > n ? "..." : "")`. */
  function Truncate(s: string, n: nat): (r: string)
    ensures |r| <= n + 3
    ensures |s| <= n ==> r == s
    ensures |s| > n ==> |r| == n + 3 && r[..n] == s[..n] && r[n..] == "..."
  {
    s[..Min(|s|, n)] + (if |s| > n then "..." else "")
  }

  lemma TruncateAvoids(s: string, n: nat, bad: set<char>)
    requires Avoids(s, bad) && '.' !in bad
    ensures Avoids(Truncate(s, n), bad)
  {
  }

  /** `split` on a text whose first piece `a` ends at the separator `c`. */
  lemma {:induction false} SplitAfter(a: string, c: char, b: string, seps: set<char>)
    requires Avoids(a, seps) && c in seps
    decreases |a|
    ensures Split(a + [c] + b, seps) == [a] + Split(b, seps)
  {
    if a == [] {
      assert ([] + [c] + b)[1..] == b;
    } else {
      assert (a + [c] + b)[1..] == a[1..] + [c] + b;
      SplitAfter(a[1..], c, b, seps);
      assert [a[0]] + a[1..] == a;
    }
  }

  /** A text without separators is a single piece. */
  lemma {:induction false} SplitWhole(a: string, seps: set<char>)
    requires Avoids(a, seps)
    decreases |a|
    ensures Split(a, seps) == [a]
  {
    if a != [] {
      SplitWhole(a[1..], seps);
      assert [a[0]] + a[1..] == a;
    }
  }

  /** `map(s => s.trim())`. */
  function TrimAll(xs: seq<string>): (r: seq<string>)
    ensures |r| == |xs|
    ensures forall k :: 0 <= k < |r| ==> IsTrimmed(r[k])
  {
    seq(|xs|, k requires 0 <= k < |xs| => Trim(xs[k]))
  }

  lemma TrimAllCons(x: string, xs: seq<string>)
    ensures TrimAll([x] + xs) == [Trim(x)] + TrimAll(xs)
  {
    var ys := [x] + xs;
    var l, r := TrimAll(ys), [Trim(x)] + TrimAll(xs);
    assert |l| == |r|;
    forall k | 0 <= k < |l| ensures l[k] == r[k] {
      if k == 0 {
        assert ys[0] == x;
      } else {
        assert ys[k] == xs[k - 1];
        assert r[k] == TrimAll(xs)[k - 1];
      }
    }
    assert l == r;
  }

  /** Whitespace in front of a trimmed non-empty text is all `trim` removes. */
  lemma TrimSpacesBefore(p: string, s: string)
    requires forall i :: 0 <= i < |p| ==> IsSpace(p[i])
    requires s != [] && IsTrimmed(s)
    ensures Trim(p + s) == s
  {
    var t := p + s;
    LeadingAt(t, |p|);
    assert t[|p|..] == s;
  }

  lemma {:induction false} LeadingAt(t: string, n: nat)
    requires n < |t| && !IsSpace(t[n])
    requires forall i :: 0 <= i < n ==> IsSpace(t[i])
    decreases n
    ensures LeadingWhile(t, IsSpace) == n
  {
    if n > 0 {
      LeadingAt(t[1..], n - 1);
    }
  }

  /** `filter`: the elements that `keep` accepts, in their order. */
  function Filter<T>(xs: seq<T>, keep: T -> bool): (r: seq<T>)
    decreases |xs|
    ensures |r| <= |xs|
  {
    if xs == [] then []
    else (if keep(xs[0]) then [xs[0]] else []) + Filter(xs[1..], keep)
  }

  /** Only accepted elements of the input are kept. */
  lemma {:induction false} FilterSound<T>(xs: seq<T>, keep: T -> bool, y: T)
    requires y in Filter(xs, keep)
    decreases |xs|
    ensures y in xs && keep(y)
  {
    if xs != [] && !(keep(xs[0]) && y == xs[0]) {
      FilterSound(xs[1..], keep, y);
    }
  }

  /** Every accepted element of the input is kept. */
  lemma {:induction false} FilterComplete<T>(xs: seq<T>, keep: T -> bool, x: T)
    requires x in xs && keep(x)
    decreases |xs|
    ensures x in Filter(xs, keep)
  {
    if x != xs[0] {
      FilterComplete(xs[1..], keep, x);
    }
  }

  /** Each of the first `n` accepted elements is an accepted element. */
  lemma KeptFrom(xs: seq<string>, keep: string -> bool, n: nat)
    ensures forall k :: 0 <= k < |Take(Filter(xs, keep), n)| ==>
      Take(Filter(xs, keep), n)[k] in xs && keep(Take(Filter(xs, keep), n)[k])
  {
    var kept := Take(Filter(xs, keep), n);
    forall k | 0 <= k < |kept| ensures kept[k] in xs && keep(kept[k]) {
      FilterSound(xs, keep, kept[k]);
    }
  }

  /** While fewer than `n` are kept, no accepted element is passed over. */
  lemma KeptAll(xs: seq<string>, keep: string -> bool, n: nat)
    ensures var ss := TrimAll(Take(Filter(xs, keep), n));
      |ss| < n ==> forall x :: x in xs && keep(x) ==> Trim(x) in ss
  {
    var all := Filter(xs, keep);
    var ss := TrimAll(Take(all, n));
    if |ss| < n {
      assert Take(all, n) == all;
      forall x | x in xs && keep(x) ensures Trim(x) in ss {
        FilterComplete(xs, keep, x);
        var i :| 0 <= i < |all| && all[i] == x;
        assert ss[i] == Trim(x);
      }
    }
  }

  /** What every element avoids, the trimmed accepted ones avoid. */
  lemma KeptAvoids(xs: seq<string>, keep: string -> bool, n: nat, bad: set<char>)
    requires forall k :: 0 <= k < |xs| ==> Avoids(xs[k], bad)
    ensures forall k :: 0 <= k < |TrimAll(Take(Filter(xs, keep), n))| ==>
      Avoids(TrimAll(Take(Filter(xs, keep), n))[k], bad)
  {
    var kept := Take(Filter(xs, keep), n);
    forall k | 0 <= k < |kept| ensures Avoids(Trim(kept[k]), bad) {
      FilterSound(xs, keep, kept[k]);
      TrimAvoids(kept[k], bad);
    }
  }

  /** The first `n` elements (`slice(0, n)`). */
  function Take<T>(xs: seq<T>, n: nat): (r: seq<T>)
    ensures |r| == Min(|xs|, n)
  {
    xs[..Min(|xs|, n)]
  }

  /** `r` is what is left of `t` once something is cut from its front. */
  predicate IsSuffix(r: string, t: string) {
    |r| <= |t| && r == t[|t| - |r|..]
  }

  lemma SuffixOfSuffix(t: string, b: string, r: string)
    requires IsSuffix(b, t) && IsSuffix(r, b)
    ensures IsSuffix(r, t)
  {
    assert t[|t| - |b|..][|b| - |r|..] == t[|t| - |r|..];
  }

  lemma SuffixAvoids(t: string, r: string, bad: set<char>)
    requires Avoids(t, bad) && IsSuffix(r, t)
    ensures Avoids(r, bad)
  {
    forall i | 0 <= i < |r| ensures r[i] !in bad {
      assert r[i] == t[|t| - |r| + i];
    }
  }
}
