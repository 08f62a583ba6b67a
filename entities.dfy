/** `decodeHtmlEntities` (route.ts): a fixed table of named character
    references replaced by literal substitution, with `&amp;` replaced last
    and in a pass of its own, so that an escaped ampersand is never decoded
    a second time. Numeric references other than `&#39;` stay literal. */
module Entities {
  import opened Text

  /** The first pass, in the table's own order. */
  const EntityTable: seq<(string, string)> := [
    ("&nbsp;", " "), ("&lt;", "<"), ("&gt;", ">"),
    ("&quot;", "\""), ("&#39;", "'"), ("&apos;", "'")
  ]

  const Amp: string := "&amp;"

  /** `s.split(from).join(to)`: every occurrence of `from`, scanned from the
      left without overlap, becomes `to`. */
  function Substitute(s: string, from: string, to: string): string
    requires from != []
    decreases |s|
  {
    if s == [] then []
    else if from <= s then to + Substitute(s[|from|..], from, to)
    else [s[0]] + Substitute(s[1..], from, to)
  }

  predicate WellFormedTable(table: seq<(string, string)>) {
    forall k :: 0 <= k < |table| ==> table[k].0 != []
  }

  /** The substitutions of `table`, first entry first. */
  function ApplyTable(s: string, table: seq<(string, string)>): string
    requires WellFormedTable(table)
    decreases |table|
  {
    if table == [] then s
    else
      var last := table[|table| - 1];
      Substitute(ApplyTable(s, table[..|table| - 1]), last.0, last.1)
  }

  /** What `decodeHtmlEntities` returns. */
  function Decode(s: string): string {
    Substitute(ApplyTable(s, EntityTable), Amp, "&")
  }

  /** The loop of route.ts:30-32 over the table, then the `&amp;` pass. */
  method DecodeHtmlEntities(text: string) returns (result: string)
    ensures result == Decode(text)
  {
    result := text;
    for i := 0 to |EntityTable|
      invariant result == ApplyTable(text, EntityTable[..i])
    {
      assert EntityTable[..i + 1][..i] == EntityTable[..i];
      result := Substitute(result, EntityTable[i].0, EntityTable[i].1);
    }
    assert EntityTable[..|EntityTable|] == EntityTable;
    result := Substitute(result, Amp, "&");
  }

  // ---------------------------------------------------------------------
  // The encoder that decoding undoes

  /** Characters an HTML serializer may write as character references. */
  const Escapable: set<char> := {'<', '>', '"', '\''}

  function EntityFor(c: char): string {
    if c == '<' then "&lt;"
    else if c == '>' then "&gt;"
    else if c == '"' then "&quot;"
    else if c == '\'' then "&#39;"
    else Amp
  }

  /** How `Encode` writes one character. */
  function Piece(c: char, named: set<char>): string {
    if c == '&' || c in named then EntityFor(c) else [c]
  }

  /** Writes `&` as `&amp;` and each character of `named` as its reference. */
  function Encode(s: string, named: set<char>): string
    decreases |s|
  {
    if s == [] then [] else Piece(s[0], named) + Encode(s[1..], named)
  }

  /** The characters whose reference is the `k`-th table entry. */
  function DecodedBy(k: nat): set<char>
    requires k < |EntityTable|
  {
    set c | c in Escapable && EntityFor(c) == EntityTable[k].0
  }

  /** Characters of `named` that no entry among the first `n` decodes. */
  function Remaining(named: set<char>, n: nat): set<char>
    requires n <= |EntityTable|
  {
    set c | c in named && forall j :: 0 <= j < n ==> EntityFor(c) != EntityTable[j].0
  }

  /** A character reference, named (`&lt;`) or numeric (`&#39;`): `&`,
      then a name without `&` or `;`, then `;`. */
  predicate IsReference(e: string) {
    |e| >= 2 && e[0] == '&' && e[|e| - 1] == ';' && Avoids(e[1..], {'&'}) && Avoids(e[..|e| - 1], {';'})
  }

  lemma EntityReference(c: char)
    ensures IsReference(EntityFor(c))
  {
    var e := EntityFor(c);
    assert e[0] == '&' && e[|e| - 1] == ';';
    assert Avoids(e[1..], {'&'}) && Avoids(e[..|e| - 1], {';'});
  }

  lemma TableReference(k: nat)
    requires k < |EntityTable|
    ensures IsReference(EntityTable[k].0)
  {
    var e := EntityTable[k].0;
    assert e[0] == '&' && e[|e| - 1] == ';';
    assert Avoids(e[1..], {'&'}) && Avoids(e[..|e| - 1], {';'});
  }

  lemma EntityFacts(c: char, k: nat)
    requires c == '&' || c in Escapable
    requires k < |EntityTable|
    ensures IsReference(EntityFor(c)) && IsReference(EntityTable[k].0)
    ensures EntityFor(c) == EntityTable[k].0 ==> c != '&' && EntityTable[k].1 == [c]
  {
    EntityReference(c);
    TableReference(k);
  }

  /** References are prefix-free: one that starts another is the same. */
  lemma ReferencePrefix(e: string, a: string, x: string)
    requires IsReference(e) && IsReference(a)
    ensures e <= a + x ==> e == a
  {
    if |e| < |a| {
      assert a[..|a| - 1][|e| - 1] == a[|e| - 1] == (a + x)[|e| - 1];
    } else if |e| == |a| {
      if e <= a + x {
        assert e == (a + x)[..|e|] == a;
      }
    } else {
      assert (a + x)[|a| - 1] == ';';
      assert e[..|e| - 1][|a| - 1] == e[|a| - 1];
    }
  }

  /** An occurrence of a reference cannot start inside text without `&`. */
  lemma {:induction false} SkipPlain(x: string, t: string, e: string, to: string)
    requires e != [] && e[0] == '&' && Avoids(x, {'&'})
    decreases |x|
    ensures Substitute(x + t, e, to) == x + Substitute(t, e, to)
  {
    if x == [] {
      assert x + t == t;
    } else {
      assert !(e <= x + t) by { assert (x + t)[0] == x[0]; }
      assert (x + t)[1..] == x[1..] + t;
      SkipPlain(x[1..], t, e, to);
    }
  }

  /** The table pass on a reference that is its entry's own. */
  lemma HeadDecoded(c: char, x: string, named: set<char>, k: nat)
    requires named <= Escapable && k < |EntityTable|
    requires c in named && EntityFor(c) == EntityTable[k].0
    ensures Substitute(Piece(c, named) + x, EntityTable[k].0, EntityTable[k].1)
         == Piece(c, named - DecodedBy(k)) + Substitute(x, EntityTable[k].0, EntityTable[k].1)
  {
    var e := EntityTable[k].0;
    EntityFacts(c, k);
    assert c in DecodedBy(k);
    assert (e + x)[|e|..] == x;
  }

  /** A substitution leaves a different reference at the head alone. */
  lemma KeptReference(a: string, x: string, e: string, to: string)
    requires IsReference(a) && IsReference(e) && a != e
    ensures Substitute(a + x, e, to) == a + Substitute(x, e, to)
  {
    ReferencePrefix(e, a, x);
    assert (a + x)[1..] == a[1..] + x;
    SkipPlain(a[1..], x, e, to);
    assert [a[0]] + a[1..] == a;
  }

  /** The table pass on a reference of another entry, or on `&amp;`. */
  lemma HeadKept(c: char, x: string, named: set<char>, k: nat)
    requires named <= Escapable && k < |EntityTable|
    requires (c == '&' || c in named) && EntityFor(c) != EntityTable[k].0
    ensures Substitute(Piece(c, named) + x, EntityTable[k].0, EntityTable[k].1)
         == Piece(c, named - DecodedBy(k)) + Substitute(x, EntityTable[k].0, EntityTable[k].1)
  {
    EntityFacts(c, k);
    assert c !in DecodedBy(k);
    assert Piece(c, named) == EntityFor(c) == Piece(c, named - DecodedBy(k));
    KeptReference(EntityFor(c), x, EntityTable[k].0, EntityTable[k].1);
  }

  /** The table pass on a character that was written as itself. */
  lemma HeadPlain(c: char, x: string, named: set<char>, k: nat)
    requires named <= Escapable && k < |EntityTable|
    requires c != '&' && c !in named
    ensures Substitute(Piece(c, named) + x, EntityTable[k].0, EntityTable[k].1)
         == Piece(c, named - DecodedBy(k)) + Substitute(x, EntityTable[k].0, EntityTable[k].1)
  {
    EntityFacts('&', k);
    assert ([c] + x)[1..] == x;
  }

  /** One table pass turns exactly the references of its entry back into
      characters and leaves every other reference alone. */
  lemma {:induction false} TableStep(s: string, named: set<char>, k: nat)
    requires named <= Escapable && k < |EntityTable|
    decreases |s|
    ensures Substitute(Encode(s, named), EntityTable[k].0, EntityTable[k].1)
         == Encode(s, named - DecodedBy(k))
  {
    if s != [] {
      TableStep(s[1..], named, k);
      var c, x := s[0], Encode(s[1..], named);
      if c != '&' && c !in named {
        HeadPlain(c, x, named, k);
      } else if c in named && EntityFor(c) == EntityTable[k].0 {
        HeadDecoded(c, x, named, k);
      } else {
        EntityFacts(c, k);
        HeadKept(c, x, named, k);
      }
    }
  }

  lemma {:induction false} TablePrefix(s: string, named: set<char>, n: nat)
    requires named <= Escapable && n <= |EntityTable|
    decreases n
    ensures ApplyTable(Encode(s, named), EntityTable[..n]) == Encode(s, Remaining(named, n))
  {
    if n == 0 {
      assert Remaining(named, 0) == named;
    } else {
      assert EntityTable[..n][..n - 1] == EntityTable[..n - 1];
      TablePrefix(s, named, n - 1);
      TableStep(s, Remaining(named, n - 1), n - 1);
      assert Remaining(named, n - 1) - DecodedBy(n - 1) == Remaining(named, n);
    }
  }

  /** The `&amp;` pass undoes the escaping of ampersands. */
  lemma {:induction false} AmpPass(s: string)
    decreases |s|
    ensures Substitute(Encode(s, {}), Amp, "&") == s
  {
    if s != [] {
      var x := Encode(s[1..], {});
      AmpPass(s[1..]);
      if s[0] == '&' {
        assert Encode(s, {}) == Amp + x;
        assert (Amp + x)[|Amp|..] == x;
      } else {
        assert Encode(s, {}) == [s[0]] + x;
        assert ([s[0]] + x)[1..] == x;
      }
    }
  }

  /** Decoding undoes any escaping of `&` together with some of `<`, `>`,
      `"` and `'`: in particular an escaped reference such as `&amp;lt;`
      decodes to the literal `&lt;` and never further to `<`. */
  lemma DecodeInvertsEncode(s: string, named: set<char>)
    requires named <= Escapable
    ensures Decode(Encode(s, named)) == s
  {
    TablePrefix(s, named, |EntityTable|);
    assert EntityTable[..|EntityTable|] == EntityTable;
    assert Remaining(named, |EntityTable|) == {} by {
      assert EntityFor('<') == EntityTable[1].0;
      assert EntityFor('>') == EntityTable[2].0;
      assert EntityFor('"') == EntityTable[3].0;
      assert EntityFor('\'') == EntityTable[4].0;
    }
    AmpPass(s);
  }

  lemma {:induction false} EncodePlain(s: string)
    requires Avoids(s, {'&'})
    decreases |s|
    ensures Encode(s, {}) == s
  {
    if s != [] {
      EncodePlain(s[1..]);
    }
  }

  /** Text without an ampersand decodes to itself. */
  lemma DecodePlain(s: string)
    requires Avoids(s, {'&'})
    ensures Decode(s) == s
  {
    EncodePlain(s);
    DecodeInvertsEncode(s, {});
  }

  /** `&amp;lt;` decodes to `&lt;`, not to `<`. */
  lemma EscapedReferenceStaysLiteral()
    ensures Decode("&amp;lt;") == "&lt;"
  {
    assert Encode("&lt;", {}) == "&amp;lt;" by {
      assert Encode("t;", {}) == "t;" by { EncodePlain("t;"); }
      assert Encode("lt;", {}) == "lt;" by { EncodePlain("lt;"); }
      assert "&lt;"[1..] == "lt;";
    }
    DecodeInvertsEncode("&lt;", {});
  }

  /** Every entry of the table, `&nbsp;` and `&apos;` included, decodes on
      its own to its replacement. */
  lemma DecodeTableEntry(k: nat)
    requires k < |EntityTable|
    ensures Decode(EntityTable[k].0) == EntityTable[k].1
  {
    EntryPasses(k, |EntityTable|);
    assert EntityTable[..|EntityTable|] == EntityTable;
    var c := EntityTable[k].1;
    TableValue(k);
    SkipPlain(c, [], Amp, "&");
    assert c + [] == c;
  }

  /** The first `n` table passes leave the `k`-th reference alone until
      its own pass, which turns it into its replacement; later passes keep
      that replacement. */
  lemma {:induction false} EntryPasses(k: nat, n: nat)
    requires k < |EntityTable| && n <= |EntityTable|
    decreases n
    ensures ApplyTable(EntityTable[k].0, EntityTable[..n])
         == if n <= k then EntityTable[k].0 else EntityTable[k].1
  {
    if n > 0 {
      assert EntityTable[..n][..n - 1] == EntityTable[..n - 1];
      EntryPasses(k, n - 1);
      var e, from, to := EntityTable[k].0, EntityTable[n - 1].0, EntityTable[n - 1].1;
      TableReference(n - 1);
      if n - 1 < k {
        TableReference(k);
        TableDistinct(n - 1, k);
        KeptReference(e, [], from, to);
        assert e + [] == e;
      } else if n - 1 == k {
        assert e[|e|..] == [];
      } else {
        var c := EntityTable[k].1;
        TableValue(k);
        SkipPlain(c, [], from, to);
        assert c + [] == c;
      }
    }
  }

  /** No two entries of the table share a reference. */
  lemma TableDistinct(i: nat, j: nat)
    requires i < j < |EntityTable|
    ensures EntityTable[i].0 != EntityTable[j].0
  {
    var a, b := EntityTable[i].0, EntityTable[j].0;
    if |a| == |b| {
      assert a[1] != b[1] || a[2] != b[2];
    }
  }

  /** Each replacement is one character other than `&`. */
  lemma TableValue(k: nat)
    requires k < |EntityTable|
    ensures |EntityTable[k].1| == 1 && Avoids(EntityTable[k].1, {'&'})
  {
  }

  /** Each table reference on its own decodes to its character. */
  lemma DecodeReference(c: char)
    requires c in Escapable
    ensures Decode(EntityFor(c)) == [c]
  {
    assert Encode([c], {c}) == EntityFor(c);
    DecodeInvertsEncode([c], {c});
  }
}
