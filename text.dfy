/** String handling the benchmark harness relies on: Java's `\s` class,
    `replaceAll("\\s+", "_")`, `Collectors.joining(sep)` and the inverse
    split on a separator that the CSV layout is read back with. */
module Text {

  /** Java's regular-expression class `\s`: space, tab, newline, vertical
      tab, form feed and carriage return. */
  predicate IsSpace(c: char) {
    c == ' ' || c == '\t' || c == '\n' || c == '\U{0B}' || c == '\U{0C}' || c == '\r'
  }

  predicate NoSpaces(s: string) {
    forall i | 0 <= i < |s| :: !IsSpace(s[i])
  }

  predicate AllSpaces(s: string) {
    forall i | 0 <= i < |s| :: IsSpace(s[i])
  }

  /** `s` without its leading run of whitespace. */
  function DropSpaces(s: string): (r: string)
    ensures |r| <= |s|
  {
    if s != [] && IsSpace(s[0]) then DropSpaces(s[1..]) else s
  }

  /** What `DropSpaces` removes is a run of whitespace, and what it keeps
      is the rest of the text, which does not start with whitespace. */
  lemma {:induction false} DropSpacesSplits(s: string)
    ensures var r := DropSpaces(s);
      && r == s[|s| - |r|..]
      && (r == [] || !IsSpace(r[0]))
      && AllSpaces(s[..|s| - |r|])
  {
    if s != [] && IsSpace(s[0]) {
      DropSpacesSplits(s[1..]);
      var r := DropSpaces(s);
      assert s[..|s| - |r|] == [s[0]] + s[1..][..|s| - 1 - |r|];
    }
  }

  /** `s.replaceAll("\\s+", "_")`: every maximal run of whitespace becomes
      one underscore, every other character is kept. */
  function Underscored(s: string): string
    decreases |s|
  {
    if s == [] then []
    else if IsSpace(s[0]) then "_" + Underscored(DropSpaces(s[1..]))
    else [s[0]] + Underscored(s[1..])
  }

  /** The result holds no whitespace and is no longer than the input. */
  lemma {:induction false} UnderscoredHasNoSpaces(s: string)
    ensures NoSpaces(Underscored(s)) && |Underscored(s)| <= |s|
    decreases |s|
  {
    if s != [] {
      if IsSpace(s[0]) {
        UnderscoredHasNoSpaces(DropSpaces(s[1..]));
      } else {
        UnderscoredHasNoSpaces(s[1..]);
      }
    }
  }

  /** Text without whitespace is left as it is. */
  lemma {:induction false} UnderscoredKeepsPlainText(s: string)
    requires NoSpaces(s)
    ensures Underscored(s) == s
  {
    if s != [] {
      assert !IsSpace(s[0]);
      UnderscoredKeepsPlainText(s[1..]);
    }
  }

  /** Leading whitespace in front of text that does not start with it is
      dropped entirely. */
  lemma {:induction false} DropSpacesOfRun(run: string, rest: string)
    requires AllSpaces(run)
    requires rest == [] || !IsSpace(rest[0])
    ensures DropSpaces(run + rest) == rest
  {
    if run != [] {
      assert (run + rest)[1..] == run[1..] + rest;
      DropSpacesOfRun(run[1..], rest);
    }
  }

  /** A non-empty run of whitespace followed by text that does not start
      with whitespace becomes a single underscore. */
  lemma RunBecomesOneUnderscore(run: string, rest: string)
    requires run != [] && AllSpaces(run)
    requires rest == [] || !IsSpace(rest[0])
    ensures Underscored(run + rest) == "_" + Underscored(rest)
  {
    assert (run + rest)[0] == run[0];
    assert (run + rest)[1..] == run[1..] + rest;
    DropSpacesOfRun(run[1..], rest);
  }

  /** Dropping leading whitespace commutes with appending, once the text
      holds something other than whitespace. */
  lemma {:induction false} DropSpacesAppend(a: string, t: string)
    requires a != [] && !IsSpace(a[|a| - 1])
    ensures DropSpaces(a + t) == DropSpaces(a) + t
  {
    if IsSpace(a[0]) {
      assert |a| > 1;
      assert (a + t)[1..] == a[1..] + t;
      DropSpacesAppend(a[1..], t);
    }
  }

  /** The replacement works run by run: text that does not end in
      whitespace can be rewritten separately from what follows it. */
  lemma {:induction false} UnderscoredAppend(a: string, t: string)
    requires a == [] || !IsSpace(a[|a| - 1])
    ensures Underscored(a + t) == Underscored(a) + Underscored(t)
    decreases |a|
  {
    if a == [] {
      assert a + t == t;
    } else if IsSpace(a[0]) {
      UnderscoredAppendRun(a, t);
    } else {
      assert (a + t)[0] == a[0] && (a + t)[1..] == a[1..] + t;
      UnderscoredAppend(a[1..], t);
    }
  }

  lemma {:induction false} UnderscoredAppendRun(a: string, t: string)
    requires a != [] && IsSpace(a[0]) && !IsSpace(a[|a| - 1])
    ensures Underscored(a + t) == Underscored(a) + Underscored(t)
    decreases |a|, 0
  {
    assert (a + t)[0] == a[0] && (a + t)[1..] == a[1..] + t;
    var d := DropSpaces(a[1..]);
    DropSpacesKeepsLast(a[1..]);
    DropSpacesAppend(a[1..], t);
    UnderscoredAppend(d, t);
    assert Underscored(a + t) == "_" + Underscored(d + t);
  }

  /** Text that ends in something other than whitespace keeps that end. */
  lemma DropSpacesKeepsLast(s: string)
    requires s != [] && !IsSpace(s[|s| - 1])
    ensures var r := DropSpaces(s); r != [] && r[|r| - 1] == s[|s| - 1]
  {
    var r := DropSpaces(s);
    DropSpacesSplits(s);
  }

  /** `String.join`/`Collectors.joining(sep)` over at least one part. */
  function Join(parts: seq<string>, sep: char): (s: string)
    requires parts != []
    ensures |s| >= |parts| - 1
  {
    if |parts| == 1 then parts[0]
    else Join(parts[..|parts| - 1], sep) + [sep] + parts[|parts| - 1]
  }

  /** The fields of `s` between occurrences of `sep`, empty fields
      included, so that there is always one more field than separators. */
  function Split(s: string, sep: char): (fields: seq<string>)
    ensures fields != []
  {
    if s == [] then [[]]
    else
      var init := Split(s[..|s| - 1], sep);
      if s[|s| - 1] == sep then init + [[]]
      else init[..|init| - 1] + [init[|init| - 1] + [s[|s| - 1]]]
  }

  predicate Excludes(s: string, c: char) {
    forall i | 0 <= i < |s| :: s[i] != c
  }

  /** One character other than the separator extends the last field. */
  lemma SplitAppendChar(s: string, c: char, sep: char)
    requires c != sep
    ensures var f := Split(s, sep);
      Split(s + [c], sep) == f[..|f| - 1] + [f[|f| - 1] + [c]]
  {
    var t := s + [c];
    assert t[..|t| - 1] == s && t[|t| - 1] == c;
  }

  /** Text without the separator extends the last field. */
  lemma {:induction false} SplitAppendField(s: string, p: string, sep: char)
    requires Excludes(p, sep)
    ensures var f := Split(s, sep);
      Split(s + p, sep) == f[..|f| - 1] + [f[|f| - 1] + p]
  {
    var f := Split(s, sep);
    if p == [] {
      assert s + p == s && f[|f| - 1] + p == f[|f| - 1];
      assert f[..|f| - 1] + [f[|f| - 1]] == f;
    } else {
      var q := p[..|p| - 1];
      var c := p[|p| - 1];
      assert q + [c] == p;
      SplitAppendField(s, q, sep);
      assert s + p == (s + q) + [c];
      SplitAppendChar(s + q, c, sep);
      ExtendLast(f, q, c);
    }
  }

  /** Extending the last field twice is extending it once by both parts. */
  lemma ExtendLast(f: seq<string>, q: string, c: char)
    requires f != []
    ensures var g := f[..|f| - 1] + [f[|f| - 1] + q];
      g[..|g| - 1] + [g[|g| - 1] + [c]] == f[..|f| - 1] + [f[|f| - 1] + (q + [c])]
  {
    var g := f[..|f| - 1] + [f[|f| - 1] + q];
    assert g[..|g| - 1] == f[..|f| - 1] && g[|g| - 1] == f[|f| - 1] + q;
    assert f[|f| - 1] + q + [c] == f[|f| - 1] + (q + [c]);
  }

  /** A separator followed by text without it opens one more field. */
  lemma SplitAppendSeparated(s: string, p: string, sep: char)
    requires Excludes(p, sep)
    ensures Split(s + [sep] + p, sep) == Split(s, sep) + [p]
  {
    var t := s + [sep];
    assert t[..|t| - 1] == s;
    assert Split(t, sep) == Split(s, sep) + [[]];
    SplitAppendField(t, p, sep);
    var f := Split(t, sep);
    assert f[..|f| - 1] == Split(s, sep) && f[|f| - 1] + p == p;
    assert t + p == s + [sep] + p;
  }

  /** Splitting a join on a separator no part contains gives the parts back. */
  lemma {:induction false} SplitJoin(parts: seq<string>, sep: char)
    requires parts != []
    requires forall i | 0 <= i < |parts| :: Excludes(parts[i], sep)
    ensures Split(Join(parts, sep), sep) == parts
  {
    if |parts| == 1 {
      SplitAppendField([], parts[0], sep);
      assert [] + parts[0] == parts[0];
    } else {
      var init := parts[..|parts| - 1];
      SplitJoin(init, sep);
      SplitAppendSeparated(Join(init, sep), parts[|parts| - 1], sep);
      assert init + [parts[|parts| - 1]] == parts;
    }
  }
}
