/** Port rules of app/route/router.go: "443", "1000-2000", with 16-bit wrap-around. */
module Ports {
  import opened Bytes

  /** unicode.IsSpace. */
  predicate IsSpace(c: char)
  {
    var u := c as int;
    || 0x09 <= u <= 0x0D || u == 0x20 || u == 0x85 || u == 0xA0 || u == 0x1680
    || 0x2000 <= u <= 0x200A || u == 0x2028 || u == 0x2029 || u == 0x202F || u == 0x205F || u == 0x3000
  }

  function TrimLeft(s: string): string
  {
    if s != "" && IsSpace(s[0]) then TrimLeft(s[1..]) else s
  }

  function TrimRight(s: string): string
  {
    if s != "" && IsSpace(s[|s| - 1]) then TrimRight(s[..|s| - 1]) else s
  }

  function TrimSpace(s: string): string
  {
    TrimRight(TrimLeft(s))
  }

  /** strings.Split(s, "-"). */
  function Split(s: string): (parts: seq<string>)
    ensures parts != []
  {
    if s == "" then [""]
    else
      var rest := Split(s[1..]);
      if s[0] == '-' then [""] + rest else [[s[0]] + rest[0]] + rest[1..]
  }

  predicate IsDigit(c: char)
  {
    '0' <= c <= '9'
  }

  /** The number that the digits of s spell; other characters are skipped. */
  function Value(s: string): nat
  {
    if s == "" then 0
    else
      var c, v := s[|s| - 1], Value(s[..|s| - 1]);
      if IsDigit(c) then 10 * v + (c as int - '0' as int) else v
  }

  lemma Accumulate(v: nat, d: nat)
    ensures (v % 0x1_0000 * 10 % 0x1_0000 + d) % 0x1_0000 == (10 * v + d) % 0x1_0000
  {
    var q, r := v / 0x1_0000, v % 0x1_0000;
    assert 10 * v + d == 10 * r + d + 0x1_0000 * (10 * q);
  }

  /** The accumulator is a uint16, so the port is the spelled number modulo 2^16. */
  method ParsePort(s: string) returns (port: U16)
    ensures port == Value(s) % 0x1_0000
  {
    port := 0;
    for i := 0 to |s|
      invariant port == Value(s[..i]) % 0x1_0000
    {
      assert s[..i + 1][..i] == s[..i];
      if IsDigit(s[i]) {
        var d := s[i] as int - '0' as int;
        Accumulate(Value(s[..i]), d);
        port := (port as int * 10 % 0x1_0000 + d) % 0x1_0000;
      }
    }
    assert s[..|s|] == s;
  }

  ghost predicate OneDash(s: string, a: string, b: string)
  {
    s == a + "-" + b && '-' !in a && '-' !in b
  }

  /** Empty matches all, one dash is a range, anything else is a single number. */
  ghost predicate PortMatches(rule: string, port: U16)
  {
    var s := TrimSpace(rule);
    || s == ""
    || (exists a, b :: OneDash(s, a, b) && Value(a) % 0x1_0000 <= port <= Value(b) % 0x1_0000)
    || ((forall a, b :: !OneDash(s, a, b)) && port == Value(s) % 0x1_0000)
  }

  lemma {:induction false} SplitNoDash(s: string)
    ensures '-' !in s <==> |Split(s)| == 1
    ensures '-' !in s ==> Split(s) == [s]
  {
    if s != "" {
      SplitNoDash(s[1..]);
      assert s == [s[0]] + s[1..];
    }
  }

  lemma {:induction false} SplitTwo(s: string)
    requires |Split(s)| == 2
    ensures OneDash(s, Split(s)[0], Split(s)[1])
  {
    var rest := Split(s[1..]);
    assert s == [s[0]] + s[1..];
    if s[0] == '-' {
      SplitNoDash(s[1..]);
      assert s == "" + "-" + rest[0];
    } else {
      SplitTwo(s[1..]);
      assert s == [s[0]] + (rest[0] + "-" + rest[1]);
      assert s == ([s[0]] + rest[0]) + "-" + rest[1];
    }
  }

  lemma {:induction false} SplitOneDash(a: string, b: string)
    requires '-' !in a && '-' !in b
    ensures Split(a + "-" + b) == [a, b]
  {
    var s := a + "-" + b;
    if a == "" {
      SplitNoDash(b);
      assert s[1..] == b && [""] + [b] == ["", b];
    } else {
      SplitOneDash(a[1..], b);
      assert s[1..] == a[1..] + "-" + b;
      assert [a[0]] + a[1..] == a;
      assert [a[1..], b][1..] == [b];
    }
  }

  method MatchPort(rule: string, port: U16) returns (m: bool)
    ensures m <==> PortMatches(rule, port)
  {
    var s := TrimSpace(rule);
    if s == "" {
      return true;
    }
    var parts := Split(s);
    if |parts| == 2 {
      SplitTwo(s);
    }
    forall a, b | OneDash(s, a, b) ensures parts == [a, b] {
      SplitOneDash(a, b);
    }
    if |parts| == 2 {
      var from := ParsePort(parts[0]);
      var to := ParsePort(parts[1]);
      assert OneDash(s, parts[0], parts[1]);
      return from <= port <= to;
    }
    var single := ParsePort(s);
    m := port == single;
  }

  // ---------- rules written in decimal ----------

  function Decimal(n: nat): (s: string)
    ensures s != "" && forall i | 0 <= i < |s| :: IsDigit(s[i])
  {
    var last := ('0' as int + n % 10) as char;
    if n < 10 then [last] else Decimal(n / 10) + [last]
  }

  lemma {:induction false} ValueOfDecimal(n: nat)
    ensures Value(Decimal(n)) == n
  {
    var s := Decimal(n);
    if n >= 10 {
      ValueOfDecimal(n / 10);
      assert s[..|s| - 1] == Decimal(n / 10);
    } else {
      assert s[..0] == "" && Value("") == 0;
    }
  }

  lemma TrimUnspaced(s: string)
    requires s == "" || (!IsSpace(s[0]) && !IsSpace(s[|s| - 1]))
    ensures TrimSpace(s) == s
  {
  }

  lemma PlainDigits(s: string)
    requires s != "" && forall i | 0 <= i < |s| :: IsDigit(s[i])
    ensures '-' !in s && !IsSpace(s[0]) && !IsSpace(s[|s| - 1])
  {
  }

  lemma DashInside(s: string, a: string, b: string)
    ensures OneDash(s, a, b) ==> '-' in s
  {
    if OneDash(s, a, b) {
      assert s[|a|] == '-';
    }
  }

  lemma RangeMatches(rule: string, a: string, b: string, port: U16)
    requires TrimSpace(rule) == a + "-" + b && '-' !in a && '-' !in b
    ensures PortMatches(rule, port) <==> Value(a) % 0x1_0000 <= port <= Value(b) % 0x1_0000
  {
    hide Value, TrimSpace;
    var s := TrimSpace(rule);
    assert s != "" && OneDash(s, a, b);
    forall x, y | OneDash(s, x, y) ensures x == a && y == b {
      SplitOneDash(a, b);
      SplitOneDash(x, y);
    }
  }

  /** A port written in decimal means itself. */
  lemma DecimalPort(n: U16, port: U16)
    ensures PortMatches(Decimal(n), port) <==> port == n
  {
    var s := Decimal(n);
    ValueOfDecimal(n);
    PlainDigits(s);
    TrimUnspaced(s);
    forall x, y {
      DashInside(s, x, y);
    }
  }

  /** A range of ports written in decimal means that range, both ends included. */
  lemma DecimalRange(lo: U16, hi: U16, port: U16)
    ensures PortMatches(Decimal(lo) + "-" + Decimal(hi), port) <==> lo <= port <= hi
  {
    hide Decimal, Value, TrimSpace;
    var a, b := Decimal(lo), Decimal(hi);
    var s := a + "-" + b;
    ValueOfDecimal(lo);
    ValueOfDecimal(hi);
    PlainDigits(a);
    PlainDigits(b);
    TrimUnspaced(s);
    RangeMatches(s, a, b, port);
  }

  // ---------- blanks and other characters ----------

  ghost predicate Blank(s: string)
  {
    forall i | 0 <= i < |s| :: IsSpace(s[i])
  }

  /** Neither digits nor dashes. */
  ghost predicate Filler(s: string)
  {
    forall i | 0 <= i < |s| :: !IsDigit(s[i]) && s[i] != '-'
  }

  lemma {:induction false} TrimBlankLeft(pre: string, s: string)
    requires Blank(pre)
    ensures TrimLeft(pre + s) == TrimLeft(s)
  {
    if pre == "" {
      assert pre + s == s;
    } else {
      assert (pre + s)[1..] == pre[1..] + s;
      TrimBlankLeft(pre[1..], s);
    }
  }

  lemma {:induction false} TrimBlankRight(s: string, post: string)
    requires Blank(post)
    ensures TrimRight(s + post) == TrimRight(s)
  {
    if post == "" {
      assert s + post == s;
    } else {
      var init := post[..|post| - 1];
      assert (s + post)[..|s + post| - 1] == s + init;
      TrimBlankRight(s, init);
    }
  }

  lemma TrimAround(pre: string, s: string, post: string)
    requires Blank(pre) && Blank(post) && s != "" && !IsSpace(s[0]) && !IsSpace(s[|s| - 1])
    ensures TrimSpace(pre + s + post) == s
  {
    assert pre + s + post == pre + (s + post);
    TrimBlankLeft(pre, s + post);
    assert TrimLeft(s + post) == s + post;
    TrimBlankRight(s, post);
  }

  lemma {:induction false} ValueBefore(s: string, filler: string)
    requires Filler(filler)
    ensures Value(s + filler) == Value(s)
  {
    if filler == "" {
      assert s + filler == s;
    } else {
      var init := filler[..|filler| - 1];
      assert (s + filler)[..|s + filler| - 1] == s + init;
      ValueBefore(s, init);
    }
  }

  lemma {:induction false} ValueAfter(filler: string, s: string)
    requires Filler(filler)
    ensures Value(filler + s) == Value(s)
  {
    if s == "" {
      assert filler + s == "" + filler;
      ValueBefore("", filler);
    } else {
      assert (filler + s)[..|filler + s| - 1] == filler + s[..|s| - 1];
      ValueAfter(filler, s[..|s| - 1]);
    }
  }

  /** A port is read through blanks around it. */
  lemma BlankPort(pre: string, n: U16, post: string, port: U16)
    requires Blank(pre) && Blank(post)
    ensures PortMatches(pre + Decimal(n) + post, port) <==> port == n
  {
    hide Decimal, Value, TrimSpace;
    var s := Decimal(n);
    ValueOfDecimal(n);
    PlainDigits(s);
    TrimAround(pre, s, post);
    forall x, y {
      DashInside(s, x, y);
    }
  }

  lemma NoDashInside(n: nat, f: string)
    requires Filler(f)
    ensures '-' !in Decimal(n) + f && '-' !in f + Decimal(n)
    ensures Value(Decimal(n) + f) == Value(f + Decimal(n)) == n
  {
    hide Decimal, Value;
    PlainDigits(Decimal(n));
    ValueOfDecimal(n);
    ValueBefore(Decimal(n), f);
    ValueAfter(f, Decimal(n));
  }

  lemma Ends(x: string, mid: string, y: string)
    requires x != "" && y != ""
    ensures var s := x + mid + y; s[0] == x[0] && s[|s| - 1] == y[|y| - 1]
  {
  }

  /** A range is read through blanks around it and anything but digits and dashes around its
      dash, so "1000 - 2000" is the range from 1000 to 2000. */
  lemma SpacedRange(pre: string, lo: U16, f: string, g: string, hi: U16, post: string, port: U16)
    requires Blank(pre) && Blank(post) && Filler(f) && Filler(g)
    ensures PortMatches(pre + ((Decimal(lo) + f) + "-" + (g + Decimal(hi))) + post, port) <==> lo <= port <= hi
  {
    hide Decimal, Value, TrimSpace, Filler, Blank, PortMatches;
    var a, b := Decimal(lo) + f, g + Decimal(hi);
    var s := a + "-" + b;
    NoDashInside(lo, f);
    NoDashInside(hi, g);
    PlainDigits(Decimal(lo));
    PlainDigits(Decimal(hi));
    Ends(a, "-", b);
    assert a[0] == Decimal(lo)[0] && b[|b| - 1] == Decimal(hi)[|Decimal(hi)| - 1];
    TrimAround(pre, s, post);
    RangeMatches(pre + s + post, a, b, port);
  }

  /** A rule of blanks matches every port. */
  lemma BlankMatchesAll(s: string, port: U16)
    requires Blank(s)
    ensures PortMatches(s, port)
  {
    assert s + "" == s;
    TrimBlankLeft(s, "");
  }

  lemma {:induction false} SplitFirst(a: string, rest: string)
    requires '-' !in a
    ensures Split(a + "-" + rest) == [a] + Split(rest)
  {
    var s := a + "-" + rest;
    if a == "" {
      assert s[1..] == rest;
    } else {
      assert s[1..] == a[1..] + "-" + rest && [a[0]] + a[1..] == a;
      SplitFirst(a[1..], rest);
      assert ([a[1..]] + Split(rest))[1..] == Split(rest);
    }
  }

  lemma NoRange(s: string)
    requires |Split(s)| != 2
    ensures forall a, b :: !OneDash(s, a, b)
  {
    forall a, b ensures !OneDash(s, a, b) {
      if OneDash(s, a, b) {
        SplitOneDash(a, b);
      }
    }
  }

  /** With two dashes it is no range: all its digits together spell one number. */
  lemma TwoDashes(a: U16, b: U16, c: U16, port: U16)
    ensures var s := Decimal(a) + "-" + (Decimal(b) + "-" + Decimal(c));
      PortMatches(s, port) <==> port == Value(s) % 0x1_0000
  {
    hide Decimal, Value, TrimSpace, Split, OneDash;
    var x, y, z := Decimal(a), Decimal(b), Decimal(c);
    var s := x + "-" + (y + "-" + z);
    PlainDigits(x);
    PlainDigits(y);
    PlainDigits(z);
    Ends(x, "-", y + "-" + z);
    Ends(y, "-", z);
    TrimUnspaced(s);
    SplitFirst(x, y + "-" + z);
    SplitOneDash(y, z);
    NoRange(s);
  }
}
