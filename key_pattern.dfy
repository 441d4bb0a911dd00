/**
 * Expansion of a version-pattern template into the text of an anchored
 * regular expression (`getKeyRegexp`): the literal `service + "-" + pattern`
 * is quoted with `regexp.QuoteMeta`, each placeholder `%V`, `%S`, `%G`, `%B`,
 * `%W` is replaced by its sub-expression with `strings.Replace`, one
 * placeholder after the other in the iteration order of a Go map, and the
 * result is wrapped in `^` and `$`.
 */
module KeyPattern {

  /** The characters `regexp.QuoteMeta` escapes with a backslash. */
  predicate IsSpecial(c: char) {
    c == '\\' || c == '.' || c == '+' || c == '*' || c == '?' || c == '(' || c == ')' ||
    c == '|' || c == '[' || c == ']' || c == '{' || c == '}' || c == '^' || c == '$'
  }

  /** `regexp.QuoteMeta`: a backslash before every special character. */
  function QuoteMeta(s: string): (r: string)
    ensures |s| <= |r| <= 2 * |s|
    ensures (forall i :: 0 <= i < |s| ==> !IsSpecial(s[i])) ==> r == s
  {
    if s == [] then []
    else (if IsSpecial(s[0]) then ['\\', s[0]] else [s[0]]) + QuoteMeta(s[1..])
  }

  /** Removes one level of backslash escaping: the inverse of QuoteMeta. */
  function Unquote(r: string): string
  {
    if r == [] then []
    else if r[0] == '\\' && |r| >= 2 then [r[1]] + Unquote(r[2..])
    else [r[0]] + Unquote(r[1..])
  }

  /** Quoting loses nothing: the literal text can be read back. */
  lemma {:induction false} UnquoteQuoteMeta(s: string)
    ensures Unquote(QuoteMeta(s)) == s
  {
    if s != [] {
      UnquoteQuoteMeta(s[1..]);
      var q := QuoteMeta(s);
      if IsSpecial(s[0]) {
        assert q == ['\\', s[0]] + QuoteMeta(s[1..]);
        assert q[2..] == QuoteMeta(s[1..]);
      } else {
        assert q == [s[0]] + QuoteMeta(s[1..]);
        assert q[1..] == QuoteMeta(s[1..]);
      }
    }
  }

  /**
   * A literal expression: a sequence of units, each a character that is not
   * special or a backslash followed by a special character. Such a text
   * matches exactly the string `Unquote` reads back from it.
   */
  predicate IsLiteral(r: string)
    decreases |r|
  {
    r == [] ||
    (!IsSpecial(r[0]) && IsLiteral(r[1..])) ||
    (|r| >= 2 && r[0] == '\\' && IsSpecial(r[1]) && IsLiteral(r[2..]))
  }

  /** Every special character comes out escaped, and nothing else does. */
  lemma {:induction false} QuoteMetaIsLiteral(s: string)
    ensures IsLiteral(QuoteMeta(s))
  {
    if s != [] {
      QuoteMetaIsLiteral(s[1..]);
      var q := QuoteMeta(s);
      if IsSpecial(s[0]) {
        assert q == ['\\', s[0]] + QuoteMeta(s[1..]);
        assert q[2..] == QuoteMeta(s[1..]);
      } else {
        assert q == [s[0]] + QuoteMeta(s[1..]);
        assert q[1..] == QuoteMeta(s[1..]);
      }
    }
  }

  /**
   * QuoteMeta is the only way to write `s` as a literal expression: a literal
   * text that reads back as `s` is QuoteMeta(s).
   */
  lemma {:induction false} LiteralIsQuoteMeta(r: string, s: string)
    requires IsLiteral(r) && Unquote(r) == s
    ensures r == QuoteMeta(s)
    decreases |r|
  {
    if r != [] {
      if !IsSpecial(r[0]) && IsLiteral(r[1..]) {
        assert Unquote(r) == [r[0]] + Unquote(r[1..]);
        LiteralIsQuoteMeta(r[1..], s[1..]);
        assert r == [r[0]] + r[1..];
      } else {
        assert Unquote(r) == [r[1]] + Unquote(r[2..]);
        LiteralIsQuoteMeta(r[2..], s[1..]);
        assert r == [r[0], r[1]] + r[2..];
      }
    }
  }

  /** Quoting works character by character, so it distributes over concatenation. */
  lemma {:induction false} QuoteMetaAppend(a: string, b: string)
    ensures QuoteMeta(a + b) == QuoteMeta(a) + QuoteMeta(b)
  {
    if a == [] {
      assert a + b == b;
    } else {
      var head := if IsSpecial(a[0]) then ['\\', a[0]] else [a[0]];
      var x, y := QuoteMeta(a[1..]), QuoteMeta(b);
      calc {
        QuoteMeta(a + b);
        { assert (a + b)[0] == a[0] && (a + b)[1..] == a[1..] + b; }
        head + QuoteMeta(a[1..] + b);
        { QuoteMetaAppend(a[1..], b); }
        head + (x + y);
        (head + x) + y;
        QuoteMeta(a) + y;
      }
    }
  }

  /**
   * `strings.Replace(s, pat, rep, -1)`: every non-overlapping occurrence of
   * `pat`, found from left to right, is replaced by `rep`.
   */
  function Replace(s: string, pat: string, rep: string): (r: string)
    requires pat != []
    ensures pat[0] !in s ==> r == s
    decreases |s|
  {
    if |s| < |pat| then s
    else if s[..|pat|] == pat then rep + Replace(s[|pat|..], pat, rep)
    else [s[0]] + Replace(s[1..], pat, rep)
  }

  /**
   * The placeholder table of `getKeyRegexp`, keyed by the letter that
   * follows '%' (the Go map is keyed by the two-character token itself).
   */
  const Constructs: map<char, string> := map[
    'V' := "([0-9]+)",
    'S' := "([0-9a-zA-Z.,]+)",
    'G' := "(-[0-9]+-g[0-9a-z]+)?",
    'B' := "(?P<buildnum>[0-9]+)",
    'W' := "(.*)"
  ]

  /** The token `%c` that stands for placeholder `c`. */
  function Token(c: char): (t: string)
    ensures |t| == 2 && t[0] == '%' && t[1] == c
  {
    ['%', c]
  }

  /**
   * What makes the order of replacement irrelevant: no placeholder letter is
   * '%'; no replacement text contains a '%', and none is empty or begins with
   * a placeholder letter, so a replacement can neither form nor break a token.
   */
  predicate WellFormed(table: map<char, string>) {
    '%' !in table &&
    (forall c :: c in table ==> '%' !in table[c] && table[c] != []) &&
    (forall c, d :: c in table && d in table ==> table[c][0] != d)
  }

  lemma ConstructsWellFormed()
    ensures WellFormed(Constructs)
  {
    ConstructsOpenGroups();
    ConstructsPercentFree();
  }

  lemma ConstructsOpenGroups()
    ensures forall c :: c in Constructs ==> Constructs[c] != [] && Constructs[c][0] == '('
  {
  }

  lemma ConstructsPercentFree()
    ensures forall c :: c in Constructs ==> '%' !in Constructs[c]
  {
    assert '%' !in "([0-9]+)";
    assert '%' !in "([0-9a-zA-Z.,]+)";
    assert '%' !in "(-[0-9]+-g[0-9a-z]+)?";
    assert '%' !in "(?P<buildnum>[0-9]+)";
    assert '%' !in "(.*)";
  }

  /**
   * Simultaneous substitution: a left-to-right scan that replaces each token
   * of `table` by its text and copies every other character.
   */
  function Expand(s: string, table: map<char, string>): string
    decreases |s|
  {
    if |s| >= 2 && s[0] == '%' && s[1] in table then table[s[1]] + Expand(s[2..], table)
    else if s == [] then []
    else [s[0]] + Expand(s[1..], table)
  }

  predicate SubTable(part: map<char, string>, table: map<char, string>) {
    forall c :: c in part ==> c in table && part[c] == table[c]
  }

  lemma {:induction false} ExpandEmptyTable(s: string)
    ensures Expand(s, map[]) == s
    decreases |s|
  {
    if s != [] {
      ExpandEmptyTable(s[1..]);
    }
  }

  /** Replace leaves a prefix alone that cannot start an occurrence. */
  lemma {:induction false} ReplaceAfterFreePrefix(a: string, b: string, pat: string, rep: string)
    requires pat != [] && pat[0] !in a
    ensures Replace(a + b, pat, rep) == a + Replace(b, pat, rep)
    decreases |a|
  {
    if a == [] {
      assert a + b == b;
    } else {
      var s := a + b;
      assert s[0] == a[0] && s[1..] == a[1..] + b;
      ReplaceAfterFreePrefix(a[1..], b, pat, rep);
      if |s| < |pat| {
        assert Replace(b, pat, rep) == b;
      } else {
        assert s[..|pat|][0] == a[0];
        assert Replace(s, pat, rep) == [a[0]] + Replace(s[1..], pat, rep);
        assert a == [a[0]] + a[1..];
      }
    }
  }

  /**
   * One `strings.Replace` after a simultaneous substitution by part of the
   * table is the simultaneous substitution by that part plus one more entry.
   */
  lemma {:induction false} ReplaceExtendsExpand(s: string, part: map<char, string>, table: map<char, string>, k: char)
    requires WellFormed(table) && SubTable(part, table)
    requires k in table && k !in part
    ensures Replace(Expand(s, part), Token(k), table[k]) == Expand(s, part[k := table[k]])
    decreases |s|
  {
    var tok, v := Token(k), table[k];
    var next := part[k := v];
    if |s| >= 2 && s[0] == '%' && s[1] in part {
      var w := part[s[1]];
      assert '%' !in w;
      ReplaceAfterFreePrefix(w, Expand(s[2..], part), tok, v);
      ReplaceExtendsExpand(s[2..], part, table, k);
    } else if |s| >= 2 && s[0] == '%' && s[1] == k {
      var rest := Expand(s[2..], part);
      assert s[1..][1..] == s[2..];
      assert Expand(s[1..], part) == [s[1]] + rest;
      assert Expand(s, part) == tok + rest;
      assert (tok + rest)[..2] == tok && (tok + rest)[2..] == rest;
      ReplaceExtendsExpand(s[2..], part, table, k);
    } else if s != [] {
      var rest := Expand(s[1..], part);
      var e := [s[0]] + rest;
      assert Expand(s, part) == e;
      if |e| >= 2 {
        if s[0] == '%' {
          assert rest[0] != k;
        }
        assert e[..2] != tok;
        assert e[1..] == rest;
      } else {
        assert rest == [];
      }
      ReplaceExtendsExpand(s[1..], part, table, k);
    }
  }

  /**
   * Expansion distributes over a concatenation whose second part does not
   * begin with a placeholder letter, so that no token straddles the seam.
   */
  lemma {:induction false} ExpandAppend(a: string, b: string, table: map<char, string>)
    requires b != [] && b[0] !in table
    ensures Expand(a + b, table) == Expand(a, table) + Expand(b, table)
    decreases |a|
  {
    var y := Expand(b, table);
    if a == [] {
      assert a + b == b;
    } else if |a| >= 2 && a[0] == '%' && a[1] in table {
      var w, x := table[a[1]], Expand(a[2..], table);
      calc {
        Expand(a + b, table);
        { ExpandTokenStep(a, b, table); }
        w + Expand(a[2..] + b, table);
        { ExpandAppend(a[2..], b, table); }
        w + (x + y);
        (w + x) + y;
        Expand(a, table) + y;
      }
    } else {
      var x := Expand(a[1..], table);
      calc {
        Expand(a + b, table);
        { ExpandCharStep(a, b, table); }
        [a[0]] + Expand(a[1..] + b, table);
        { ExpandAppend(a[1..], b, table); }
        [a[0]] + (x + y);
        ([a[0]] + x) + y;
        { assert Expand(a, table) == [a[0]] + x; }
        Expand(a, table) + y;
      }
    }
  }

  lemma ExpandTokenStep(a: string, b: string, table: map<char, string>)
    requires |a| >= 2 && a[0] == '%' && a[1] in table
    ensures Expand(a + b, table) == table[a[1]] + Expand(a[2..] + b, table)
  {
    var ab := a + b;
    assert ab[0] == a[0] && ab[1] == a[1] && ab[2..] == a[2..] + b;
  }

  lemma ExpandCharStep(a: string, b: string, table: map<char, string>)
    requires a != [] && !(|a| >= 2 && a[0] == '%' && a[1] in table)
    requires b != [] && b[0] !in table
    ensures Expand(a + b, table) == [a[0]] + Expand(a[1..] + b, table)
  {
    var ab := a + b;
    assert ab[0] == a[0] && ab[1..] == a[1..] + b;
    if |ab| >= 2 && ab[0] == '%' {
      if |a| >= 2 {
        assert ab[1] == a[1];
      } else {
        assert ab[1] == b[0];
      }
    }
  }

  /** No token of the table is left in a text. */
  predicate PlaceholderFree(r: string, table: map<char, string>) {
    forall j :: 0 <= j < |r| - 1 && r[j] == '%' ==> r[j + 1] !in table
  }

  /** Expansion substitutes every token: none is left over, or formed anew. */
  lemma {:induction false} ExpandLeavesNoPlaceholder(s: string, table: map<char, string>)
    requires WellFormed(table)
    ensures PlaceholderFree(Expand(s, table), table)
    decreases |s|
  {
    var r := Expand(s, table);
    if |s| >= 2 && s[0] == '%' && s[1] in table {
      var w := table[s[1]];
      var rest := Expand(s[2..], table);
      ExpandLeavesNoPlaceholder(s[2..], table);
      assert r == w + rest;
      forall j | 0 <= j < |r| - 1 && r[j] == '%'
        ensures r[j + 1] !in table
      {
        if j >= |w| {
          assert r[j] == rest[j - |w|] && r[j + 1] == rest[j + 1 - |w|];
        }
      }
    } else if s != [] {
      var rest := Expand(s[1..], table);
      ExpandLeavesNoPlaceholder(s[1..], table);
      assert r == [s[0]] + rest;
      forall j | 0 <= j < |r| - 1 && r[j] == '%'
        ensures r[j + 1] !in table
      {
        if j > 0 {
          assert r[j] == rest[j - 1] && r[j + 1] == rest[j];
        }
      }
    }
  }

  /**
   * The template used when no version pattern is given: the deprecated
   * version prefix followed by ".%W-%B".
   */
  function VersionTemplate(pattern: string, prefix: string): string
  {
    if pattern == "" then prefix + ".%W-%B" else pattern
  }

  /**
   * Without a version pattern the expanded text (which KeyExpression anchors
   * with '^' and '$') is the quoted, expanded `service-prefix` followed by a
   * literal dot, the `%W` group, a dash and the named `%B` group.
   */
  lemma DefaultTemplateExpression(service: string, prefix: string)
    ensures Expand(QuoteMeta(service + "-" + VersionTemplate("", prefix)), Constructs) ==
      Expand(QuoteMeta(service + "-" + prefix), Constructs) + ("\\." + Constructs['W'] + "-" + Constructs['B'])
  {
    var q := QuoteMeta(service + "-" + prefix);
    DefaultTemplateQuoted(service, prefix);
    ExpandAppend(q, "\\.%W-%B", Constructs);
    ExpandDefaultTail();
  }

  lemma DefaultTemplateQuoted(service: string, prefix: string)
    ensures QuoteMeta(service + "-" + VersionTemplate("", prefix)) == QuoteMeta(service + "-" + prefix) + "\\.%W-%B"
  {
    var head := service + "-" + prefix;
    calc {
      QuoteMeta(service + "-" + VersionTemplate("", prefix));
      { assert service + "-" + VersionTemplate("", prefix) == head + ".%W-%B"; }
      QuoteMeta(head + ".%W-%B");
      { QuoteMetaAppend(head, ".%W-%B"); }
      QuoteMeta(head) + QuoteMeta(".%W-%B");
      { QuoteDefaultTail(); }
      QuoteMeta(head) + "\\.%W-%B";
    }
  }

  lemma QuoteDefaultTail()
    ensures QuoteMeta(".%W-%B") == "\\.%W-%B"
  {
    var tail := ".%W-%B";
    assert QuoteMeta(tail[5..]) == "B";
    assert QuoteMeta(tail[4..]) == "%B";
    assert QuoteMeta(tail[3..]) == "-%B";
    assert QuoteMeta(tail[2..]) == "W-%B";
    assert QuoteMeta(tail[1..]) == "%W-%B";
  }

  lemma ExpandDefaultTail()
    ensures Expand("\\.%W-%B", Constructs) == "\\." + Constructs['W'] + "-" + Constructs['B']
  {
    var c := Constructs;
    calc {
      Expand("\\.%W-%B", c);
      { ExpandChar("\\.%W-%B", c); assert "\\.%W-%B"[1..] == ".%W-%B"; }
      "\\" + Expand(".%W-%B", c);
      { ExpandChar(".%W-%B", c); assert ".%W-%B"[1..] == "%W-%B"; }
      "\\." + Expand("%W-%B", c);
      { ExpandPlaceholders(); }
      "\\." + (c['W'] + ("-" + c['B']));
    }
  }

  lemma ExpandPlaceholders()
    ensures Expand("%W-%B", Constructs) == Constructs['W'] + ("-" + Constructs['B'])
  {
    var c := Constructs;
    calc {
      Expand("%W-%B", c);
      { ExpandToken("%W-%B", c); assert "%W-%B"[2..] == "-%B"; }
      c['W'] + Expand("-%B", c);
      { ExpandChar("-%B", c); assert "-%B"[1..] == "%B"; }
      c['W'] + ("-" + Expand("%B", c));
      { ExpandToken("%B", c); assert "%B"[2..] == ""; }
      c['W'] + ("-" + c['B']);
    }
  }

  lemma ExpandChar(s: string, table: map<char, string>)
    requires s != [] && !(|s| >= 2 && s[0] == '%' && s[1] in table)
    ensures Expand(s, table) == [s[0]] + Expand(s[1..], table)
  {
  }

  lemma ExpandToken(s: string, table: map<char, string>)
    requires |s| >= 2 && s[0] == '%' && s[1] in table
    ensures Expand(s, table) == table[s[1]] + Expand(s[2..], table)
  {
  }

  /** The text of the anchored expression that `getKeyRegexp` compiles. */
  function KeyExpression(service: string, pattern: string): string
  {
    "^" + Expand(QuoteMeta(service + "-" + pattern), Constructs) + "$"
  }

  /**
   * The expression is anchored at both ends, and between the anchors no
   * placeholder token is left.
   */
  lemma KeyExpressionAnchored(service: string, pattern: string)
    ensures var e := KeyExpression(service, pattern);
      |e| >= 2 && e[0] == '^' && e[|e| - 1] == '$' && PlaceholderFree(e[1..|e| - 1], Constructs)
  {
    var e := KeyExpression(service, pattern);
    var body := Expand(QuoteMeta(service + "-" + pattern), Constructs);
    ConstructsWellFormed();
    ExpandLeavesNoPlaceholder(QuoteMeta(service + "-" + pattern), Constructs);
    assert e[1..|e| - 1] == body;
  }

  /**
   * Without any '%' in the service name or the pattern, the expression is
   * the anchored literal text: keys must equal `service-pattern` exactly.
   */
  lemma KeyExpressionLiteral(service: string, pattern: string)
    requires '%' !in service && '%' !in pattern
    ensures KeyExpression(service, pattern) == "^" + QuoteMeta(service + "-" + pattern) + "$"
    ensures IsLiteral(QuoteMeta(service + "-" + pattern))
  {
    var t := service + "-" + pattern;
    assert '%' !in t;
    QuoteMetaPercentFree(t);
    ExpandPercentFree(QuoteMeta(t), Constructs);
    QuoteMetaIsLiteral(t);
  }

  /** QuoteMeta adds only backslashes, so it never introduces a '%'. */
  lemma {:induction false} QuoteMetaPercentFree(s: string)
    requires '%' !in s
    ensures '%' !in QuoteMeta(s)
  {
    if s != [] {
      assert '%' !in s[1..];
      QuoteMetaPercentFree(s[1..]);
    }
  }

  /** A text without '%' holds no token, so expansion leaves it unchanged. */
  lemma {:induction false} ExpandPercentFree(s: string, table: map<char, string>)
    requires '%' !in s
    ensures Expand(s, table) == s
    decreases |s|
  {
    if s != [] {
      assert s[0] != '%' && '%' !in s[1..];
      ExpandPercentFree(s[1..], table);
      assert s == [s[0]] + s[1..];
    }
  }

  /**
   * The deprecated prefix is ignored when a version pattern is given.
   */
  lemma PrefixIgnoredWithPattern(pattern: string, prefix1: string, prefix2: string)
    requires pattern != ""
    ensures VersionTemplate(pattern, prefix1) == VersionTemplate(pattern, prefix2) == pattern
  {
  }

  /**
   * `getKeyRegexp` up to the call of `regexp.Compile`. `order` is the order in
   * which the range loop visits the placeholders of `constructs`; Go leaves it
   * unspecified but visits every key exactly once. Whatever the order, the
   * expression is KeyExpression(service, pattern).
   */
  method KeyRegexp(service: string, pattern: string, order: seq<char>) returns (expr: string)
    requires forall c :: c in order <==> c in Constructs
    requires forall i, j :: 0 <= i < j < |order| ==> order[i] != order[j]
    ensures expr == KeyExpression(service, pattern)
  {
    var quoted := QuoteMeta(service + "-" + pattern);
    expr := quoted;
    ghost var done: map<char, string> := map[];
    ExpandEmptyTable(quoted);
    for i := 0 to |order|
      invariant SubTable(done, Constructs)
      invariant forall c :: c in done <==> c in order[..i]
      invariant expr == Expand(quoted, done)
    {
      var k := order[i];
      assert k !in done;
      assert Replace(expr, Token(k), Constructs[k]) == Expand(quoted, done[k := Constructs[k]]) by {
        ConstructsWellFormed();
        ReplaceExtendsExpand(quoted, done, Constructs, k);
      }
      expr := Replace(expr, Token(k), Constructs[k]);
      done := done[k := Constructs[k]];
    }
    SameKeysSameTable(done, Constructs);
    expr := "^" + expr + "$";
  }

  lemma SameKeysSameTable(part: map<char, string>, table: map<char, string>)
    requires SubTable(part, table)
    requires forall c :: c in table ==> c in part
    ensures part == table
  {
  }
}
