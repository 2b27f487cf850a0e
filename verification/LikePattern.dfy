/** The search box's LIKE pattern: b2b_dashboard/learner_queries.py, _contains_pattern. */
module LikePattern {
  function LowerChar(c: char): char {
    if 'A' <= c <= 'Z' then c - 'A' + 'a' else c
  }

  function Lower(s: string): string {
    seq(|s|, i requires 0 <= i < |s| => LowerChar(s[i]))
  }

  /** `s.replace(c, r)` for a single character. */
  function Replace(s: string, c: char, r: string): string {
    if s == "" then "" else (if s[0] == c then r else [s[0]]) + Replace(s[1..], c, r)
  }

  function EscapeWildcards(term: string): string {
    Replace(Replace(Replace(term, '\\', "\\\\"), '%', "\\%"), '_', "\\_")
  }

  function ContainsPattern(term: string): string {
    "%" + EscapeWildcards(Lower(term)) + "%"
  }

  /** `s LIKE p` with backslash as the escape character. */
  predicate Like(s: string, p: string)
    decreases |p| + |s|
  {
    if p == "" then s == ""
    else if p[0] == '%' then Like(s, p[1..]) || (s != "" && Like(s[1..], p))
    else if p[0] == '_' then s != "" && Like(s[1..], p[1..])
    else if p[0] == '\\' && |p| > 1 then s != "" && s[0] == p[1] && Like(s[1..], p[2..])
    else s != "" && s[0] == p[0] && Like(s[1..], p[1..])
  }

  function EscapeChar(c: char): string {
    if c == '\\' || c == '%' || c == '_' then ['\\', c] else [c]
  }

  /** One pass, one character at a time. */
  function Escape(term: string): string {
    if term == "" then "" else EscapeChar(term[0]) + Escape(term[1..])
  }

  lemma {:induction false} ReplaceSplits(a: string, b: string, c: char, r: string)
    ensures Replace(a + b, c, r) == Replace(a, c, r) + Replace(b, c, r)
  {
    if a == "" {
      assert a + b == b;
    } else {
      ReplaceSplits(a[1..], b, c, r);
      assert (a + b)[1..] == a[1..] + b;
      Associates(if a[0] == c then r else [a[0]], Replace(a[1..], c, r), Replace(b, c, r));
      assert (a + b)[0] == a[0];
    }
  }

  lemma Associates(a: string, b: string, c: string)
    ensures (a + b) + c == a + (b + c)
  {
  }

  lemma ReplaceOne(x: char, c: char, r: string)
    ensures Replace([x], c, r) == if x == c then r else [x]
  {
    assert [x][1..] == "";
  }

  lemma EscapedChar(x: char)
    ensures EscapeWildcards([x]) == EscapeChar(x)
  {
    ReplaceOne(x, '\\', "\\\\");
    ReplaceOne(x, '%', "\\%");
    ReplaceOne(x, '_', "\\_");
    ReplaceOne('\\', '%', "\\%");
    ReplaceOne('\\', '_', "\\_");
    ReplaceOne('%', '_', "\\_");
    if x == '\\' {
      ReplaceSplits("\\", "\\", '%', "\\%");
      ReplaceSplits("\\", "\\", '_', "\\_");
      assert "\\\\" == "\\" + "\\";
    } else if x == '%' {
      ReplaceSplits("\\", "%", '_', "\\_");
      assert "\\%" == "\\" + "%";
    }
  }

  /** The three replacements in turn escape each character once: the backslash
      has to go first, and then nothing is escaped twice. */
  lemma {:induction false} ReplacementsEscapeOnce(term: string)
    ensures EscapeWildcards(term) == Escape(term)
  {
    if term != "" {
      var head, rest := [term[0]], term[1..];
      assert term == head + rest;
      ReplaceSplits(head, rest, '\\', "\\\\");
      ReplaceSplits(Replace(head, '\\', "\\\\"), Replace(rest, '\\', "\\\\"), '%', "\\%");
      ReplaceSplits(Replace(Replace(head, '\\', "\\\\"), '%', "\\%"),
                    Replace(Replace(rest, '\\', "\\\\"), '%', "\\%"), '_', "\\_");
      EscapedChar(term[0]);
      ReplacementsEscapeOnce(rest);
    }
  }

  lemma {:induction false} TrailingPercent(s: string)
    ensures Like(s, "%")
  {
    if s != "" {
      TrailingPercent(s[1..]);
    } else {
      assert Like(s, "%"[1..]);
    }
  }

  lemma EscapedCharMatchesItself(s: string, c: char, rest: string)
    ensures Like(s, EscapeChar(c) + rest) <==> s != "" && s[0] == c && Like(s[1..], rest)
  {
    var p := EscapeChar(c) + rest;
    assert p[|EscapeChar(c)|..] == rest;
  }

  lemma {:induction false} EscapedPrefix(s: string, term: string)
    ensures Like(s, Escape(term) + "%") <==> term <= s
  {
    if term == "" {
      assert Escape(term) + "%" == "%";
      TrailingPercent(s);
    } else {
      var rest := Escape(term[1..]) + "%";
      assert Escape(term) + "%" == EscapeChar(term[0]) + rest;
      EscapedCharMatchesItself(s, term[0], rest);
      if s != "" {
        EscapedPrefix(s[1..], term[1..]);
        assert s == [s[0]] + s[1..] && term == [term[0]] + term[1..];
      }
    }
  }

  ghost predicate Contains(s: string, term: string) {
    exists i :: 0 <= i <= |s| && term <= s[i..]
  }

  lemma {:induction false} LeadingPercent(s: string, q: string)
    ensures Like(s, "%" + q) <==> exists i :: 0 <= i <= |s| && Like(s[i..], q)
  {
    var p := "%" + q;
    assert p[1..] == q && s[0..] == s;
    if s != "" {
      LeadingPercent(s[1..], q);
      if i :| 0 <= i <= |s| && Like(s[i..], q) {
        if i > 0 {
          assert s[1..][i - 1..] == s[i..];
        }
      }
      if i :| 0 <= i <= |s[1..]| && Like(s[1..][i..], q) {
        assert s[1..][i..] == s[i + 1..];
      }
    }
  }

  /** A search finds its literal text and nothing else, wildcards included. */
  lemma PatternMatchesSubstring(s: string, term: string)
    ensures Like(s, ContainsPattern(term)) <==> Contains(s, Lower(term))
  {
    var t := Lower(term);
    ReplacementsEscapeOnce(t);
    assert ContainsPattern(term) == "%" + (Escape(t) + "%");
    LeadingPercent(s, Escape(t) + "%");
    forall i | 0 <= i <= |s|
      ensures Like(s[i..], Escape(t) + "%") <==> t <= s[i..]
    {
      EscapedPrefix(s[i..], t);
    }
  }

  /** The same character, upper or lower case: of the letters A to Z, 32 apart. */
  predicate SameLetter(a: char, b: char) {
    || a == b
    || ('A' <= a <= 'Z' && b as int == a as int + 32)
    || ('A' <= b <= 'Z' && a as int == b as int + 32)
  }

  /** `term` stands somewhere in `s`, in either case. */
  ghost predicate Finds(s: string, term: string) {
    exists i :: 0 <= i <= |s| - |term| && FindsAt(s, term, i)
  }

  ghost predicate FindsAt(s: string, term: string, i: int)
    requires 0 <= i <= |s| - |term|
  {
    forall k | 0 <= k < |term| :: SameLetter(s[i + k], term[k])
  }

  /** The search box finds its text wherever it stands, in either case. */
  lemma SearchIgnoresCase(s: string, term: string)
    ensures Like(Lower(s), ContainsPattern(term)) <==> Finds(s, term)
  {
    PatternMatchesSubstring(Lower(s), term);
    var l, t := Lower(s), Lower(term);
    forall i | 0 <= i <= |l|
      ensures t <= l[i..] <==> i <= |s| - |term| && FindsAt(s, term, i)
    {
      if i <= |s| - |term| {
        PrefixInEitherCase(s, term, i);
      }
    }
  }

  lemma PrefixInEitherCase(s: string, term: string, i: int)
    requires 0 <= i <= |s| - |term|
    ensures Lower(term) <= Lower(s)[i..] <==> FindsAt(s, term, i)
  {
    var l, t := Lower(s), Lower(term);
    forall k | 0 <= k < |term|
      ensures l[i..][k] == t[k] <==> SameLetter(s[i + k], term[k])
    {
    }
    if FindsAt(s, term, i) {
      assert t == l[i..][..|t|];
    }
  }
}
