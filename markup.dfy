/**
  The text adapter `translateText`: a fixed table of five literal substitutions that turns Jira
  `{code…}` / `{noformat}` delimiters into Markdown fences.  Go ranges over the table (a map) in an
  unspecified order; the model takes that order as a parameter and proves the result is the same
  for every order, equal to one left-to-right pass over the text (`Scan`).
*/
module Markup {
  import opened Common

  /** A search pattern; never empty (strings.Replace treats an empty pattern differently). */
  type Pattern = s: string | |s| > 0 witness "?"

  datatype Rule = Rule(from: Pattern, to: string)

  /** The substitution table of translateText. */
  const Translations: seq<Rule> := [
    Rule("[noformat]", "```"),
    Rule("{noformat}", "```"),
    Rule("{code:java}", "```java"),
    Rule("{code:ruby}", "```ruby"),
    Rule("{code}", "```")
  ]

  /** strings.Replace(s, pat, rep, -1): replace every non-overlapping occurrence, leftmost first. */
  function ReplaceAll(s: string, pat: Pattern, rep: string): string
    decreases |s|
  {
    if s == [] then []
    else if pat <= s then rep + ReplaceAll(s[|pat|..], pat, rep)
    else [s[0]] + ReplaceAll(s[1..], pat, rep)
  }

  /** The loop of translateText: one ReplaceAll per rule, in the given order. */
  function Apply(order: seq<Rule>, t: string): string
  {
    if order == [] then t
    else
      var k := |order| - 1;
      ReplaceAll(Apply(order[..k], t), order[k].from, order[k].to)
  }

  /** The first rule whose pattern starts `s`. */
  function FirstMatch(rules: seq<Rule>, s: string): (m: Option<Rule>)
    ensures m.Some? ==> m.value in rules && m.value.from <= s
    ensures m.None? ==> forall r <- rules :: !(r.from <= s)
  {
    if rules == [] then None
    else if rules[0].from <= s then Some(rules[0])
    else FirstMatch(rules[1..], s)
  }

  /** Reference definition: one left-to-right pass replacing each delimiter where it starts. */
  function Scan(rules: seq<Rule>, s: string): string
    decreases |s|
  {
    if s == [] then []
    else
      match FirstMatch(rules, s)
      case Some(r) => r.to + Scan(rules, s[|r.from|..])
      case None => [s[0]] + Scan(rules, s[1..])
  }

  /** What translateText computes, whatever the map order. */
  function Translate(t: string): string
  {
    Scan(Translations, t)
  }

  /** translateText (the Go loop over the map), with the map's iteration order as a parameter. */
  method TranslateText(t: string, order: seq<Rule>) returns (r: string)
    requires multiset(order) == multiset(Translations)
    ensures r == Translate(t)
  {
    r := t;
    for k := 0 to |order|
      invariant r == Apply(order[..k], t)
    {
      assert order[..k + 1][..k] == order[..k];
      r := ReplaceAll(r, order[k].from, order[k].to);
    }
    assert order[..|order|] == order;
    TranslateOrderIndependent(order, t);
  }

  // ---------------------------------------------------------------------------
  // Shape of the table: why the order does not matter

  predicate IsOpener(c: char)
  {
    c == '{' || c == '['
  }

  /** No character of `s` can start a delimiter. */
  predicate Plain(s: string)
  {
    forall i :: 0 <= i < |s| ==> !IsOpener(s[i])
  }

  /** No backtick in `s`. */
  predicate NoTick(s: string)
  {
    forall i :: 0 <= i < |s| ==> s[i] != '`'
  }

  /** A pattern opens with `{`/`[` and has no opener or backtick after that; a replacement is a fence. */
  predicate WellFormedRule(r: Rule)
  {
    && IsOpener(r.from[0])
    && Plain(r.from[1..])
    && NoTick(r.from)
    && |r.to| > 0 && r.to[0] == '`'
    && Plain(r.to)
  }

  predicate WellFormed(rules: seq<Rule>)
  {
    forall r <- rules :: WellFormedRule(r)
  }

  /** No pattern is a prefix of another one. */
  predicate PrefixFree(rules: seq<Rule>)
  {
    forall a <- rules, b <- rules :: a.from <= b.from ==> a == b
  }

  /** The table's patterns all open with a bracket, its replacements are fences, and no pattern prefixes another. */
  lemma TableShape()
    ensures WellFormed(Translations) && PrefixFree(Translations)
  {
    TableWellFormed();
    TablePrefixFree();
  }

  lemma TableWellFormed()
    ensures WellFormed(Translations)
  {
    ShapeNoformatBracket(); ShapeNoformatBrace(); ShapeCodeJava(); ShapeCodeRuby(); ShapeCode();
    forall r <- Translations ensures WellFormedRule(r) {
      var k :| 0 <= k < 5 && Translations[k] == r;
    }
  }

  lemma TablePrefixFree()
    ensures PrefixFree(Translations)
  {
    var t := Translations;
    Differ(t[0].from, t[1].from, 0);
    Differ(t[0].from, t[2].from, 0);
    Differ(t[0].from, t[3].from, 0);
    Differ(t[0].from, t[4].from, 0);
    Differ(t[1].from, t[2].from, 1);
    Differ(t[1].from, t[3].from, 1);
    Differ(t[1].from, t[4].from, 1);
    Differ(t[2].from, t[3].from, 6);
    Differ(t[2].from, t[4].from, 5);
    Differ(t[3].from, t[4].from, 5);
    forall a <- t, b <- t | a.from <= b.from ensures a == b {
      var i :| 0 <= i < 5 && t[i] == a;
      var j :| 0 <= j < 5 && t[j] == b;
    }
  }

  /** Two strings that differ at a position both have are not prefixes of each other. */
  lemma Differ(p: string, q: string, k: nat)
    requires k < |p| && k < |q| && p[k] != q[k]
    ensures !(p <= q) && !(q <= p)
  {
  }

  lemma ShapeNoformatBracket()
    ensures WellFormedRule(Translations[0])
  {
    assert Plain("```");
    assert "[noformat]"[1..] == "noformat]" && Plain("noformat]") && NoTick("[noformat]");
  }

  lemma ShapeNoformatBrace()
    ensures WellFormedRule(Translations[1])
  {
    assert Plain("```");
    assert "{noformat}"[1..] == "noformat}" && Plain("noformat}") && NoTick("{noformat}");
  }

  lemma ShapeCodeJava()
    ensures WellFormedRule(Translations[2])
  {
    assert Plain("```java");
    assert "{code:java}"[1..] == "code:java}" && Plain("code:java}") && NoTick("{code:java}");
  }

  lemma ShapeCodeRuby()
    ensures WellFormedRule(Translations[3])
  {
    assert Plain("```ruby");
    assert "{code:ruby}"[1..] == "code:ruby}" && Plain("code:ruby}") && NoTick("{code:ruby}");
  }

  lemma ShapeCode()
    ensures WellFormedRule(Translations[4])
  {
    assert Plain("```");
    assert "{code}"[1..] == "code}" && Plain("code}") && NoTick("{code}");
  }

  // ---------------------------------------------------------------------------
  // Lemmas

  lemma ConsPrefix(c: char, p: string, x: string)
    requires p != []
    ensures p <= [c] + x <==> p[0] == c && p[1..] <= x
  {
    if p <= [c] + x {
      assert p[1..] == ([c] + x)[1..|p|];
      assert ([c] + x)[1..|p|] == x[..|p| - 1];
    }
    if p[0] == c && p[1..] <= x {
      assert p == [c] + p[1..];
    }
  }

  lemma NoMatchAtPlainChar(rules: seq<Rule>, s: string)
    requires WellFormed(rules) && s != [] && !IsOpener(s[0])
    ensures FirstMatch(rules, s) == None
  {
    match FirstMatch(rules, s)
    case None =>
    case Some(r) =>
      assert false;
  }

  lemma {:induction false} ScanPlainPrefix(rules: seq<Rule>, a: string, b: string)
    requires WellFormed(rules) && Plain(a)
    ensures Scan(rules, a + b) == a + Scan(rules, b)
    decreases |a|
  {
    if a == [] {
      assert a + b == b;
    } else {
      var s := a + b;
      assert s[0] == a[0];
      NoMatchAtPlainChar(rules, s);
      assert Scan(rules, s) == [a[0]] + Scan(rules, s[1..]);
      assert s[1..] == a[1..] + b;
      ScanPlainPrefix(rules, a[1..], b);
      assert a == [a[0]] + a[1..];
    }
  }

  lemma {:induction false} ReplacePlainPrefix(r: Rule, a: string, b: string)
    requires WellFormedRule(r) && Plain(a)
    ensures ReplaceAll(a + b, r.from, r.to) == a + ReplaceAll(b, r.from, r.to)
    decreases |a|
  {
    if a == [] {
      assert a + b == b;
    } else {
      var s := a + b;
      assert !(r.from <= s);
      assert s[1..] == a[1..] + b;
      ReplacePlainPrefix(r, a[1..], b);
    }
  }

  lemma {:induction false} ScanNoRules(s: string)
    ensures Scan([], s) == s
    decreases |s|
  {
    if s != [] {
      ScanNoRules(s[1..]);
    }
  }

  /** A backtick-free, opener-free prefix of a scanned text was already a prefix of the text. */
  lemma {:induction false} PrefixThroughScan(rules: seq<Rule>, w: string, t: string)
    requires WellFormed(rules) && Plain(w) && NoTick(w)
    ensures w <= Scan(rules, t) ==> w <= t
    decreases |t|
  {
    if w != [] && t != [] {
      match FirstMatch(rules, t)
      case Some(r) =>
        assert Scan(rules, t)[0] == '`';
      case None =>
        ConsPrefix(t[0], w, Scan(rules, t[1..]));
        PrefixThroughScan(rules, w[1..], t[1..]);
        ConsPrefix(t[0], w, t[1..]);
        assert t == [t[0]] + t[1..];
    }
  }

  /** After a scanned text, no pattern of a well-formed rule matches at a plain character. */
  lemma NoMatchAfterChar(rules: seq<Rule>, r: Rule, s: string)
    requires WellFormed(rules) && WellFormedRule(r) && s != []
    requires !(r.from <= s)
    ensures !(r.from <= [s[0]] + Scan(rules, s[1..]))
  {
    var y := Scan(rules, s[1..]);
    ConsPrefix(s[0], r.from, y);
    PrefixThroughScan(rules, r.from[1..], s[1..]);
    ConsPrefix(s[0], r.from, s[1..]);
    assert s == [s[0]] + s[1..];
  }

  lemma {:induction false} FirstMatchAppend(rules: seq<Rule>, r: Rule, s: string)
    ensures FirstMatch(rules + [r], s) ==
      if FirstMatch(rules, s).Some? then FirstMatch(rules, s)
      else if r.from <= s then Some(r) else None
  {
    if rules == [] {
      assert rules + [r] == [r];
    } else {
      assert (rules + [r])[1..] == rules[1..] + [r];
      FirstMatchAppend(rules[1..], r, s);
    }
  }

  /** One more ReplaceAll after a scan is a scan with one more rule. */
  lemma {:induction false} ReplaceAfterScan(rules: seq<Rule>, r: Rule, s: string)
    requires WellFormed(rules) && WellFormedRule(r)
    ensures ReplaceAll(Scan(rules, s), r.from, r.to) == Scan(rules + [r], s)
    decreases |s|
  {
    if s == [] {
      return;
    }
    FirstMatchAppend(rules, r, s);
    match FirstMatch(rules, s)
    case Some(m) =>
      var rest := s[|m.from|..];
      ReplacePlainPrefix(r, m.to, Scan(rules, rest));
      ReplaceAfterScan(rules, r, rest);
    case None =>
      if r.from <= s {
        ReplaceAfterScan(rules, r, s[|r.from|..]);
        ReplaceAtPattern(rules, r, s);
      } else {
        ReplaceAfterScan(rules, r, s[1..]);
        ReplaceAtPlain(rules, r, s);
      }
  }

  /** The step of ReplaceAfterScan where the new rule's pattern starts the text. */
  lemma ReplaceAtPattern(rules: seq<Rule>, r: Rule, s: string)
    requires WellFormed(rules) && WellFormedRule(r)
    requires FirstMatch(rules, s) == None && r.from <= s
    requires ReplaceAll(Scan(rules, s[|r.from|..]), r.from, r.to) == Scan(rules + [r], s[|r.from|..])
    ensures ReplaceAll(Scan(rules, s), r.from, r.to) == Scan(rules + [r], s)
  {
    FirstMatchAppend(rules, r, s);
    var x := Scan(rules, s[|r.from|..]);
    ScanAtPattern(rules, r, s);
    ReplaceAtStart(r.from, r.to, x);
  }

  lemma ScanAtPattern(rules: seq<Rule>, r: Rule, s: string)
    requires WellFormed(rules) && WellFormedRule(r)
    requires FirstMatch(rules, s) == None && r.from <= s
    ensures Scan(rules, s) == r.from + Scan(rules, s[|r.from|..])
  {
    var rest := s[|r.from|..];
    assert s[1..] == r.from[1..] + rest;
    ScanPlainPrefix(rules, r.from[1..], rest);
    var x := Scan(rules, rest);
    assert Scan(rules, s) == [s[0]] + Scan(rules, s[1..]);
    assert [s[0]] + (r.from[1..] + x) == r.from + x;
  }

  lemma ReplaceAtStart(p: Pattern, rep: string, x: string)
    ensures ReplaceAll(p + x, p, rep) == rep + ReplaceAll(x, p, rep)
  {
    assert p <= p + x;
    assert (p + x)[|p|..] == x;
  }

  /** The step of ReplaceAfterScan where no pattern starts the text. */
  lemma ReplaceAtPlain(rules: seq<Rule>, r: Rule, s: string)
    requires WellFormed(rules) && WellFormedRule(r) && s != []
    requires FirstMatch(rules, s) == None && !(r.from <= s)
    requires ReplaceAll(Scan(rules, s[1..]), r.from, r.to) == Scan(rules + [r], s[1..])
    ensures ReplaceAll(Scan(rules, s), r.from, r.to) == Scan(rules + [r], s)
  {
    FirstMatchAppend(rules, r, s);
    var y := Scan(rules, s[1..]);
    NoMatchAfterChar(rules, r, s);
    assert Scan(rules, s) == [s[0]] + y;
    assert ([s[0]] + y)[1..] == y;
  }

  /** Running the replacements one after another equals a single scan with the same rules. */
  lemma {:induction false} ApplyIsScan(order: seq<Rule>, t: string)
    requires WellFormed(order)
    ensures Apply(order, t) == Scan(order, t)
    decreases |order|
  {
    if order == [] {
      ScanNoRules(t);
    } else {
      var k := |order| - 1;
      ApplyIsScan(order[..k], t);
      ReplaceAfterScan(order[..k], order[k], t);
      assert order[..k] + [order[k]] == order;
    }
  }

  lemma PrefixesComparable(p: string, q: string, s: string)
    requires p <= s && q <= s
    ensures p <= q || q <= p
  {
    if |p| <= |q| {
      assert q[..|p|] == s[..|p|];
    } else {
      assert p[..|q|] == s[..|q|];
    }
  }

  /** With prefix-free patterns, the matching rule does not depend on the order of the table. */
  lemma SameMatch(a: seq<Rule>, b: seq<Rule>, s: string)
    requires forall r :: r in a <==> r in b
    requires PrefixFree(a)
    ensures FirstMatch(a, s) == FirstMatch(b, s)
  {
    match FirstMatch(a, s)
    case None =>
      if FirstMatch(b, s).Some? {
        assert FirstMatch(b, s).value in a;
      }
    case Some(x) =>
      assert x in b;
      var y := FirstMatch(b, s).value;
      PrefixesComparable(x.from, y.from, s);
  }

  lemma {:induction false} ScanSameRules(a: seq<Rule>, b: seq<Rule>, s: string)
    requires forall r :: r in a <==> r in b
    requires PrefixFree(a)
    ensures Scan(a, s) == Scan(b, s)
    decreases |s|
  {
    if s != [] {
      SameMatch(a, b, s);
      match FirstMatch(a, s)
      case Some(r) => ScanSameRules(a, b, s[|r.from|..]);
      case None => ScanSameRules(a, b, s[1..]);
    }
  }

  /** translateText gives the same text for every iteration order of its table. */
  lemma TranslateOrderIndependent(order: seq<Rule>, t: string)
    requires multiset(order) == multiset(Translations)
    ensures Apply(order, t) == Translate(t)
  {
    TableShape();
    forall r ensures r in order <==> r in Translations {
      assert r in order <==> r in multiset(order);
      assert r in Translations <==> r in multiset(Translations);
    }
    ApplyIsScan(order, t);
    ScanSameRules(Translations, order, t);
  }

  /** Translating an already translated text changes nothing. */
  lemma {:induction false} ScanIdempotent(rules: seq<Rule>, s: string)
    requires WellFormed(rules)
    ensures Scan(rules, Scan(rules, s)) == Scan(rules, s)
    decreases |s|
  {
    if s != [] {
      match FirstMatch(rules, s)
      case Some(m) =>
        var rest := s[|m.from|..];
        ScanPlainPrefix(rules, m.to, Scan(rules, rest));
        ScanIdempotent(rules, rest);
      case None =>
        var y := Scan(rules, s[1..]);
        forall r <- rules ensures !(r.from <= [s[0]] + y) {
          NoMatchAfterChar(rules, r, s);
        }
        assert FirstMatch(rules, [s[0]] + y) == None;
        assert ([s[0]] + y)[1..] == y;
        ScanIdempotent(rules, s[1..]);
    }
  }

  lemma TranslateIdempotent(t: string)
    ensures Translate(Translate(t)) == Translate(t)
  {
    TableShape();
    ScanIdempotent(Translations, t);
  }

  /** No delimiter of the table starts anywhere in a scanned text. */
  lemma {:induction false} NoMatchInScan(rules: seq<Rule>, s: string, i: nat)
    requires WellFormed(rules)
    requires i <= |Scan(rules, s)|
    ensures FirstMatch(rules, Scan(rules, s)[i..]) == None
    decreases |s|
  {
    var out := Scan(rules, s);
    if s == [] {
      return;
    }
    match FirstMatch(rules, s)
    case Some(m) =>
      var x := Scan(rules, s[|m.from|..]);
      assert out == m.to + x;
      if i < |m.to| {
        assert out[i..][0] == m.to[i];
        NoMatchAtPlainChar(rules, out[i..]);
      } else {
        assert out[i..] == x[i - |m.to|..];
        NoMatchInScan(rules, s[|m.from|..], i - |m.to|);
      }
    case None =>
      var y := Scan(rules, s[1..]);
      assert out == [s[0]] + y;
      if i == 0 {
        forall r <- rules ensures !(r.from <= out) {
          NoMatchAfterChar(rules, r, s);
        }
      } else {
        assert out[i..] == y[i - 1..];
        NoMatchInScan(rules, s[1..], i - 1);
      }
  }

  /** Every delimiter occurrence is replaced: none of the five is left anywhere in the result. */
  lemma NoDelimiterLeft(t: string, i: nat)
    requires i <= |Translate(t)|
    ensures forall r <- Translations :: !(r.from <= Translate(t)[i..])
  {
    TableShape();
    NoMatchInScan(Translations, t, i);
  }

  /** Text without `{` or `[` is left unchanged. */
  lemma TranslatePlain(t: string)
    requires Plain(t)
    ensures Translate(t) == t
  {
    TableShape();
    ScanPlainPrefix(Translations, t, []);
    assert t + [] == t;
  }
}
