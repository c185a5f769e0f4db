/** The domain patterns of app/route/router.go: a pattern is quoted as a regular expression,
    the quoted string is rewritten, and the result is matched. This module gives the regular
    expressions of that form a meaning and relates it to the meaning of the pattern. */
module DomainPattern {
  import opened Bytes

  // ---------- the string functions of the source ----------

  predicate Special(c: char)
  {
    c in "\\.+*?()|[]{}^$"
  }

  function Quote(c: char): string
  {
    if Special(c) then ['\\', c] else [c]
  }

  /** regexp.QuoteMeta. */
  function QuoteMeta(s: string): string
  {
    if s == "" then "" else Quote(s[0]) + QuoteMeta(s[1..])
  }

  /** strings.ReplaceAll for a non-empty old string: leftmost, not overlapping. */
  function ReplaceAll(s: string, old_: string, new_: string): string
    requires old_ != ""
  {
    if s == "" then ""
    else if old_ <= s then new_ + ReplaceAll(s[|old_|..], old_, new_)
    else [s[0]] + ReplaceAll(s[1..], old_, new_)
  }

  function StripDomain(domain: string): string
  {
    if "domain:" <= domain then domain[7..] else domain
  }

  function ConvertDomainToRegex(domain: string): string
  {
    var d := StripDomain(domain);
    if "full:" <= d then "^" + QuoteMeta(d[5..]) + "$"
    else if "keyword:" <= d then QuoteMeta(d[8..])
    else "^" + ReplaceAll(QuoteMeta(d), "\\*", ".*") + "$"
  }

  // ---------- regular expressions ----------

  datatype Atom = Lit(c: char) | Any
  datatype Item = Begin | End | One(a: Atom) | Many(a: Atom)

  predicate Alphanumeric(c: char)
  {
    'a' <= c <= 'z' || 'A' <= c <= 'Z' || '0' <= c <= '9'
  }

  /** An atom, starred if a star follows, in front of the rest of the expression. */
  function Repeat(a: Atom, rest: string): Option<seq<Item>>
    decreases |rest|, 1
  {
    var starred := rest != "" && rest[0] == '*';
    match ParseRegex(if starred then rest[1..] else rest)
    case None => None
    case Some(items) => Some([if starred then Many(a) else One(a)] + items)
  }

  /** The items of an expression made of anchors, dots, literals, escaped punctuation and
      stars. None is for expressions of any other form, which no pattern is translated to. */
  function ParseRegex(r: string): Option<seq<Item>>
    decreases |r|, 0
  {
    if r == "" then Some([])
    else if r[0] == '^' || r[0] == '$' then
      match ParseRegex(r[1..])
      case None => None
      case Some(items) => Some([if r[0] == '^' then Begin else End] + items)
    else if r[0] == '.' then Repeat(Any, r[1..])
    else if r[0] == '\\' then
      if |r| == 1 || Alphanumeric(r[1]) || r[1] as int >= 0x80 then None else Repeat(Lit(r[1]), r[2..])
    else if Special(r[0]) then None
    else Repeat(Lit(r[0]), r[1..])
  }

  /** A dot stands for any character but a newline. */
  predicate Fits(a: Atom, c: char)
  {
    match a
    case Lit(l) => c == l
    case Any => c != '\n'
  }

  /** The items match some stretch of t that begins at i. */
  predicate MatchFrom(items: seq<Item>, t: string, i: nat)
    requires i <= |t|
    decreases |items|, |t| - i
  {
    items == [] ||
    match items[0]
    case Begin => i == 0 && MatchFrom(items[1..], t, i)
    case End => i == |t| && MatchFrom(items[1..], t, i)
    case One(a) => i < |t| && Fits(a, t[i]) && MatchFrom(items[1..], t, i + 1)
    case Many(a) => MatchFrom(items[1..], t, i) || (i < |t| && Fits(a, t[i]) && MatchFrom(items, t, i + 1))
  }

  predicate MatchString(items: seq<Item>, t: string)
  {
    exists i | 0 <= i <= |t| :: MatchFrom(items, t, i)
  }

  /** regexp.Compile and MatchString on the translated pattern. */
  predicate PatternMatches(domain: string, name: string)
  {
    var r := ParseRegex(ConvertDomainToRegex(domain));
    r.Some? && MatchString(r.value, name)
  }

  // ---------- what a pattern means ----------

  /** A star stands for any characters; with lines set, for any characters of one line. */
  predicate Glob(p: string, t: string, lines: bool)
    decreases |p|, |t|
  {
    if p == "" then t == ""
    else if p[0] == '*' then
      Glob(p[1..], t, lines) || (t != "" && !(lines && t[0] == '\n') && Glob(p, t[1..], lines))
    else t != "" && t[0] == p[0] && Glob(p[1..], t[1..], lines)
  }

  ghost predicate Contains(t: string, p: string)
  {
    exists i: nat :: i <= |t| && p <= t[i..]
  }

  ghost predicate Meaning(domain: string, name: string, lines: bool)
  {
    var d := StripDomain(domain);
    if "full:" <= d then name == d[5..]
    else if "keyword:" <= d then Contains(name, d[8..])
    else Glob(d, name, lines)
  }

  // ---------- the rewriting ----------

  function Piece(c: char, glob: bool): string
  {
    if glob && c == '*' then ".*" else Quote(c)
  }

  /** Character-wise translation: a star becomes dot-star, when globbing, and the rest is quoted. */
  function Translate(p: string, glob: bool): string
  {
    if p == "" then "" else Piece(p[0], glob) + Translate(p[1..], glob)
  }

  lemma {:induction false} TranslateIsQuote(p: string)
    ensures Translate(p, false) == QuoteMeta(p)
  {
    if p != "" {
      TranslateIsQuote(p[1..]);
    }
  }

  lemma ReplaceStep(s: string)
    requires s != ""
    ensures ReplaceAll(s, "\\*", ".*") ==
      if "\\*" <= s then ".*" + ReplaceAll(s[2..], "\\*", ".*") else [s[0]] + ReplaceAll(s[1..], "\\*", ".*")
  {
  }

  lemma StarIn(s: string)
    ensures "\\*" <= s <==> |s| >= 2 && s[0] == '\\' && s[1] == '*'
  {
  }

  /** In front of anything but a star, one quoted character is rewritten on its own: its
      backslash, if it has one, cannot pair up with what follows. */
  lemma PieceRewritten(c: char, rest: string)
    requires rest != "" ==> rest[0] != '*'
    ensures ReplaceAll(Quote(c) + rest, "\\*", ".*") == Piece(c, true) + ReplaceAll(rest, "\\*", ".*")
  {
    hide ReplaceAll;
    var s := Quote(c) + rest;
    ReplaceStep(s);
    StarIn(s);
    if c == '*' {
      assert s[2..] == rest;
    } else if Special(c) {
      assert s[1..] == [c] + rest && s[1..][1..] == rest;
      ReplaceStep(s[1..]);
      StarIn(s[1..]);
    } else {
      assert s[1..] == rest;
    }
  }

  /** Rewriting the quoted string is safe although the pattern may itself contain backslashes. */
  lemma {:induction false} RewriteIsTranslate(p: string)
    ensures ReplaceAll(QuoteMeta(p), "\\*", ".*") == Translate(p, true)
  {
    if p != "" {
      RewriteIsTranslate(p[1..]);
      PieceRewritten(p[0], QuoteMeta(p[1..]));
    }
  }

  // ---------- the translation parses ----------

  function ItemOf(c: char, glob: bool): Item
  {
    if glob && c == '*' then Many(Any) else One(Lit(c))
  }

  function Items(p: string, glob: bool): seq<Item>
  {
    if p == "" then [] else [ItemOf(p[0], glob)] + Items(p[1..], glob)
  }

  /** The end of the expression: anchored or not. */
  function Tail(anchored: bool): seq<Item>
  {
    if anchored then [End] else []
  }

  lemma StarParses(rest: string)
    ensures ParseRegex(".*" + rest) == match ParseRegex(rest) case None => None case Some(items) => Some([Many(Any)] + items)
  {
    var r := ".*" + rest;
    assert r[1..] == "*" + rest && r[1..][1..] == rest;
  }

  lemma QuotedParses(c: char, rest: string)
    requires rest != "" ==> rest[0] != '*'
    ensures ParseRegex(Quote(c) + rest) == match ParseRegex(rest) case None => None case Some(items) => Some([One(Lit(c))] + items)
  {
    var r := Quote(c) + rest;
    if Special(c) {
      assert r[0] == '\\' && r[1] == c && r[2..] == rest;
    } else {
      assert r[0] == c && r[1..] == rest;
    }
  }

  lemma PieceParses(c: char, glob: bool, rest: string, items: seq<Item>)
    requires rest != "" ==> rest[0] != '*'
    requires ParseRegex(rest) == Some(items)
    ensures ParseRegex(Piece(c, glob) + rest) == Some([ItemOf(c, glob)] + items)
  {
    hide ParseRegex;
    StarParses(rest);
    QuotedParses(c, rest);
  }

  lemma EndParses()
    ensures ParseRegex("") == Some([]) && ParseRegex("$") == Some([End])
  {
    assert "$"[1..] == "" && [End] + [] == [End];
  }

  lemma {:induction false} TranslateParses(p: string, glob: bool, anchored: bool)
    ensures ParseRegex(Translate(p, glob) + if anchored then "$" else "") ==
      Some(Items(p, glob) + Tail(anchored))
  {
    var end := if anchored then "$" else "";
    if p == "" {
      EndParses();
      assert "" + end == end && Items(p, glob) + Tail(anchored) == Tail(anchored);
    } else {
      hide ParseRegex;
      var c, rest := p[0], Translate(p[1..], glob) + end;
      TranslateParses(p[1..], glob, anchored);
      PieceParses(c, glob, rest, Items(p[1..], glob) + Tail(anchored));
      assert Items(p, glob) + Tail(anchored) == [ItemOf(c, glob)] + (Items(p[1..], glob) + Tail(anchored));
      assert Translate(p, glob) + end == Piece(c, glob) + rest;
    }
  }

  // ---------- and means what the pattern means ----------

  lemma {:induction false} ItemsMatchGlob(p: string, t: string, i: nat)
    requires i <= |t|
    ensures MatchFrom(Items(p, true) + [End], t, i) <==> Glob(p, t[i..], true)
    decreases |p|, |t| - i
  {
    var items := Items(p, true) + [End];
    if p == "" {
      assert items == [End] && items[1..] == [];
    } else {
      assert items[1..] == Items(p[1..], true) + [End];
      if i < |t| {
        assert t[i..][1..] == t[i + 1..];
        ItemsMatchGlob(p[1..], t, i + 1);
        if p[0] == '*' {
          ItemsMatchGlob(p, t, i + 1);
        }
      }
      ItemsMatchGlob(p[1..], t, i);
    }
  }

  lemma {:induction false} LiteralsMatch(p: string, anchored: bool, t: string, i: nat)
    requires i <= |t|
    ensures MatchFrom(Items(p, false) + Tail(anchored), t, i) <==>
      if anchored then t[i..] == p else p <= t[i..]
    decreases p
  {
    var items := Items(p, false) + Tail(anchored);
    if p == "" {
      assert items == Tail(anchored);
      assert [End][1..] == [];
    } else {
      assert items[1..] == Items(p[1..], false) + Tail(anchored);
      assert p == [p[0]] + p[1..];
      if i < |t| {
        assert t[i..] == [t[i]] + t[i + 1..];
        LiteralsMatch(p[1..], anchored, t, i + 1);
      }
    }
  }

  lemma AnchoredMatch(items: seq<Item>, t: string)
    ensures MatchString([Begin] + items, t) <==> MatchFrom(items, t, 0)
  {
    assert ([Begin] + items)[1..] == items;
    if MatchFrom(items, t, 0) {
      assert MatchFrom([Begin] + items, t, 0);
    }
  }

  lemma AnchoredParse(r: string, items: seq<Item>)
    requires ParseRegex(r + "$") == Some(items)
    ensures ParseRegex("^" + r + "$") == Some([Begin] + items)
  {
    assert "^" + r + "$" == "^" + (r + "$");
    assert ("^" + (r + "$"))[1..] == r + "$";
  }

  /** Every pattern compiles, and matches a name exactly when the name is equal to, contains,
      or, line by line, globs the pattern. */
  lemma PatternMeaning(domain: string, name: string)
    ensures ParseRegex(ConvertDomainToRegex(domain)).Some?
    ensures PatternMatches(domain, name) <==> Meaning(domain, name, true)
  {
    hide ParseRegex, MatchFrom, MatchString, Glob, Items;
    var d := StripDomain(domain);
    if "full:" <= d {
      var p := d[5..];
      TranslateIsQuote(p);
      TranslateParses(p, false, true);
      AnchoredParse(QuoteMeta(p), Items(p, false) + [End]);
      AnchoredMatch(Items(p, false) + [End], name);
      LiteralsMatch(p, true, name, 0);
    } else if "keyword:" <= d {
      KeywordMeaning(d[8..], name);
    } else {
      RewriteIsTranslate(d);
      TranslateParses(d, true, true);
      AnchoredParse(Translate(d, true), Items(d, true) + [End]);
      AnchoredMatch(Items(d, true) + [End], name);
      ItemsMatchGlob(d, name, 0);
      assert name[0..] == name;
    }
  }

  lemma StripsOnce(q: string)
    ensures StripDomain("domain:" + q) == q
    ensures !("domain:" <= q) ==> StripDomain(q) == q
  {
    assert ("domain:" + q)[7..] == q;
  }

  lemma MeansFull(p: string, name: string)
    ensures !("domain:" <= "full:" + p)
    ensures StripDomain("full:" + p) == "full:" + p ==> (Meaning("full:" + p, name, true) <==> name == p)
  {
    assert ("full:" + p)[0] == 'f' && ("full:" + p)[5..] == p;
  }

  lemma MeansKeyword(p: string, name: string)
    ensures !("domain:" <= "keyword:" + p)
    ensures StripDomain("keyword:" + p) == "keyword:" + p ==> (Meaning("keyword:" + p, name, true) <==> Contains(name, p))
  {
    var k := "keyword:" + p;
    assert k[0] == 'k' && k[8..] == p && !("full:" <= k);
  }

  lemma SameStripped(c: string, d: string, name: string)
    requires StripDomain(c) == StripDomain(d)
    ensures PatternMatches(c, name) <==> Meaning(d, name, true)
  {
    PatternMeaning(c, name);
  }

  /** Spelled out: a name equals a `full:` pattern, with or without `domain:` in front. */
  lemma FullPattern(p: string, name: string)
    ensures PatternMatches("full:" + p, name) <==> name == p
    ensures PatternMatches("domain:full:" + p, name) <==> name == p
  {
    hide PatternMatches, Meaning, StripDomain;
    var d := "full:" + p;
    assert "domain:full:" + p == "domain:" + d;
    MeansFull(p, name);
    StripsOnce(d);
    SameStripped(d, d, name);
    SameStripped("domain:" + d, d, name);
  }

  /** It contains a `keyword:` pattern, with or without `domain:` in front. */
  lemma KeywordPattern(p: string, name: string)
    ensures PatternMatches("keyword:" + p, name) <==> Contains(name, p)
    ensures PatternMatches("domain:keyword:" + p, name) <==> Contains(name, p)
  {
    hide PatternMatches, Meaning, StripDomain;
    var d := "keyword:" + p;
    assert "domain:keyword:" + p == "domain:" + d;
    MeansKeyword(p, name);
    StripsOnce(d);
    SameStripped(d, d, name);
    SameStripped("domain:" + d, d, name);
  }

  /** And it globs any other one, with `domain:` in front once or not at all. */
  lemma GlobPattern(p: string, name: string)
    requires !("full:" <= p) && !("keyword:" <= p)
    ensures PatternMatches("domain:" + p, name) <==> Glob(p, name, true)
    ensures !("domain:" <= p) ==> (PatternMatches(p, name) <==> Glob(p, name, true))
  {
    hide PatternMatches, StripDomain, Glob;
    StripsOnce(p);
    PatternMeaning("domain:" + p, name);
    PatternMeaning(p, name);
  }

  lemma KeywordMeaning(p: string, name: string)
    ensures ParseRegex(QuoteMeta(p)).Some?
    ensures MatchString(ParseRegex(QuoteMeta(p)).value, name) <==> Contains(name, p)
  {
    hide ParseRegex, MatchFrom, Items;
    TranslateIsQuote(p);
    TranslateParses(p, false, false);
    assert QuoteMeta(p) + "" == QuoteMeta(p);
    var items := Items(p, false) + Tail(false);
    forall i: nat | i <= |name| ensures MatchFrom(items, name, i) <==> p <= name[i..] {
      LiteralsMatch(p, false, name, i);
    }
  }

  lemma {:induction false} OneLineGlob(p: string, t: string)
    requires '\n' !in t
    ensures Glob(p, t, true) == Glob(p, t, false)
    decreases |p|, |t|
  {
    if p != "" {
      if t != "" {
        OneLineGlob(p[1..], t[1..]);
        OneLineGlob(p, t[1..]);
      }
      OneLineGlob(p[1..], t);
    }
  }

  lemma {:induction false} StarGlobsAll(t: string)
    ensures Glob("*", t, false)
  {
    if t != "" {
      StarGlobsAll(t[1..]);
    }
  }

  lemma {:induction false} StarStopsAtNewline(t: string)
    requires '\n' in t
    ensures !Glob("*", t, true)
  {
    if t[0] != '\n' {
      StarStopsAtNewline(t[1..]);
    }
  }

  /** Patterns keep their plain meaning on a name exactly when it has no newline. */
  lemma PlainMeaningIffOneLine(name: string)
    ensures (forall domain :: PatternMatches(domain, name) <==> Meaning(domain, name, false)) <==> '\n' !in name
  {
    hide PatternMatches, Glob;
    if '\n' in name {
      PatternMeaning("*", name);
      StarGlobsAll(name);
      StarStopsAtNewline(name);
      assert !PatternMatches("*", name) && Meaning("*", name, false);
    } else {
      forall domain ensures PatternMatches(domain, name) <==> Meaning(domain, name, false) {
        PatternMeaning(domain, name);
        OneLineGlob(StripDomain(domain), name);
      }
    }
  }

  // ---------- which patterns keep their plain meaning on every name ----------

  /** Nothing in the pattern is a wildcard. */
  predicate Fixed(domain: string)
  {
    var d := StripDomain(domain);
    "full:" <= d || "keyword:" <= d || '*' !in d
  }

  lemma {:induction false} NoStarGlob(p: string, t: string)
    requires '*' !in p
    ensures Glob(p, t, true) == Glob(p, t, false)
    decreases p
  {
    if p != "" && t != "" {
      NoStarGlob(p[1..], t[1..]);
    }
  }

  function Count(s: string, c: char): nat
  {
    if s == "" then 0 else (if s[0] == c then 1 else 0) + Count(s[1..], c)
  }

  /** The pattern with a newline for each star. */
  function Filled(p: string): string
  {
    if p == "" then "" else [if p[0] == '*' then '\n' else p[0]] + Filled(p[1..])
  }

  lemma {:induction false} FilledGlobs(p: string)
    ensures Glob(p, Filled(p), false)
    ensures Count(Filled(p), '\n') == Count(p, '\n') + Count(p, '*')
  {
    if p != "" {
      FilledGlobs(p[1..]);
      assert Filled(p)[1..] == Filled(p[1..]);
      if p[0] == '*' {
        assert Glob(p, Filled(p)[1..], false);
      }
    }
  }

  /** Line by line, every newline of the name is one of the pattern. */
  lemma {:induction false} GlobKeepsNewlines(p: string, t: string)
    requires Glob(p, t, true)
    ensures Count(t, '\n') == Count(p, '\n')
    decreases |p|, |t|
  {
    if p != "" {
      if p[0] != '*' {
        GlobKeepsNewlines(p[1..], t[1..]);
      } else if Glob(p[1..], t, true) {
        GlobKeepsNewlines(p[1..], t);
      } else {
        GlobKeepsNewlines(p, t[1..]);
      }
    }
  }

  lemma {:induction false} StarCounted(p: string)
    ensures Count(p, '*') > 0 <==> '*' in p
  {
    if p != "" {
      StarCounted(p[1..]);
      assert p == [p[0]] + p[1..];
    }
  }

  /** A pattern keeps its plain meaning on every name exactly when it has no wildcard. */
  lemma PlainMeaningIffFixed(domain: string)
    ensures (forall name :: PatternMatches(domain, name) <==> Meaning(domain, name, false)) <==> Fixed(domain)
  {
    hide PatternMatches, Glob;
    var d := StripDomain(domain);
    if Fixed(domain) {
      forall name ensures PatternMatches(domain, name) <==> Meaning(domain, name, false) {
        PatternMeaning(domain, name);
        if '*' !in d {
          NoStarGlob(d, name);
        }
      }
    } else {
      var name := Filled(d);
      PatternMeaning(domain, name);
      FilledGlobs(d);
      StarCounted(d);
      if Glob(d, name, true) {
        GlobKeepsNewlines(d, name);
      }
      assert !PatternMatches(domain, name) && Meaning(domain, name, false);
    }
  }
}
