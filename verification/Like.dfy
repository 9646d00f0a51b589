/** Escaping a path for SQL LIKE, so that deleting a subtree deletes that subtree. */
module Like {

  /** ASCII case folding, the one LIKE applies. */
  function Fold(c: char): char {
    if 'A' <= c <= 'Z' then (c as int + 32) as char else c
  }

  function FoldAll(s: string): (r: string)
    ensures |r| == |s| && forall i :: 0 <= i < |s| ==> r[i] == Fold(s[i])
  {
    seq(|s|, i requires 0 <= i < |s| => Fold(s[i]))
  }

  const ESCAPE := '\\'

  /** `s LIKE pattern ESCAPE '\'`. */
  predicate Matches(pattern: string, s: string)
    decreases |pattern| + |s|
  {
    if pattern == [] then s == []
    else if pattern[0] == ESCAPE then
      |pattern| > 1 && s != [] && Fold(s[0]) == Fold(pattern[1]) && Matches(pattern[2..], s[1..])
    else if pattern[0] == '%' then Matches(pattern[1..], s) || (s != [] && Matches(pattern, s[1..]))
    else s != [] && (pattern[0] == '_' || Fold(s[0]) == Fold(pattern[0])) && Matches(pattern[1..], s[1..])
  }

  /** `str::replace` with a one-character pattern. */
  function Replace(s: string, c: char, text: string): string {
    if s == [] then [] else (if s[0] == c then text else [s[0]]) + Replace(s[1..], c, text)
  }

  function Escaped(s: string): string {
    Replace(Replace(Replace(s, '\\', "\\\\"), '%', "\\%"), '_', "\\_")
  }

  predicate Special(c: char) {
    c == '\\' || c == '%' || c == '_'
  }

  lemma {:induction false} ReplaceConcat(a: string, b: string, c: char, text: string)
    ensures Replace(a + b, c, text) == Replace(a, c, text) + Replace(b, c, text)
  {
    if a == [] {
      assert a + b == b;
    } else {
      ReplaceConcat(a[1..], b, c, text);
      var head := if a[0] == c then text else [a[0]];
      assert (a + b)[1..] == a[1..] + b && (a + b)[0] == a[0];
      assert (head + Replace(a[1..], c, text)) + Replace(b, c, text) == head + (Replace(a[1..], c, text) + Replace(b, c, text));
    }
  }

  lemma ReplaceOne(x: char, c: char, text: string)
    ensures Replace([x], c, text) == if x == c then text else [x]
  {
    assert [x][1..] == [];
  }

  lemma ReplaceTwo(x: char, y: char, c: char, text: string)
    ensures Replace([x, y], c, text) == Replace([x], c, text) + Replace([y], c, text)
  {
    ReplaceConcat([x], [y], c, text);
    assert [x, y] == [x] + [y];
  }

  /** The three replacements do not disturb each other: together they put one backslash before each special character. */
  lemma EscapedNext(x: char, rest: string)
    ensures Escaped([x] + rest) == (if Special(x) then [ESCAPE, x] else [x]) + Escaped(rest)
  {
    var a, a1 := Replace([x], '\\', "\\\\"), Replace(rest, '\\', "\\\\");
    var b, b1 := Replace(a, '%', "\\%"), Replace(a1, '%', "\\%");
    ReplaceConcat([x], rest, '\\', "\\\\");
    ReplaceConcat(a, a1, '%', "\\%");
    ReplaceConcat(b, b1, '_', "\\_");
    ReplaceOne(x, '\\', "\\\\");
    ReplaceOne(x, '%', "\\%");
    ReplaceOne(x, '_', "\\_");
    ReplaceTwo('\\', '\\', '%', "\\%");
    ReplaceTwo('\\', '\\', '_', "\\_");
    ReplaceTwo('\\', '%', '_', "\\_");
    ReplaceOne('\\', '%', "\\%");
    ReplaceOne('\\', '_', "\\_");
    ReplaceOne('%', '_', "\\_");
  }

  lemma {:induction false} PercentMatchesAll(s: string)
    ensures Matches("%", s)
  {
    if s == [] {
      assert "%"[1..] == [];
    } else {
      PercentMatchesAll(s[1..]);
    }
  }

  /** s starts with p and a slash, up to ASCII case. */
  predicate Under(p: string, s: string) {
    |s| > |p| && FoldAll(s[..|p|]) == FoldAll(p) && s[|p|] == '/'
  }

  lemma UnderNext(p: string, s: string)
    requires p != []
    ensures Under(p, s) <==> s != [] && Fold(s[0]) == Fold(p[0]) && Under(p[1..], s[1..])
  {
    if |s| > |p| {
      var a, b := FoldAll(s[..|p|]), FoldAll(p);
      var c, d := FoldAll(s[1..][..|p| - 1]), FoldAll(p[1..]);
      assert a == [Fold(s[0])] + c && b == [Fold(p[0])] + d;
      if Fold(s[0]) == Fold(p[0]) && a == b {
        assert a[1..] == c && b[1..] == d;
      }
    }
  }

  /**
   Subtree deletion selects exactly the paths under p: every wildcard in p is taken literally, and no
   path outside is caught. ASCII letters match in either case.
   */
  lemma {:induction false} EscapedPrefixIsLiteral(p: string, s: string)
    ensures Matches(Escaped(p) + "/%", s) <==> Under(p, s)
  {
    if p == [] {
      assert Escaped(p) + "/%" == "/%";
      assert "/%"[1..] == "%";
      if s != [] {
        PercentMatchesAll(s[1..]);
      }
    } else {
      var x, rest := p[0], p[1..];
      assert p == [x] + rest;
      EscapedNext(x, rest);
      UnderNext(p, s);
      var tail := Escaped(rest) + "/%";
      var whole := Escaped(p) + "/%";
      if Special(x) {
        assert whole == [ESCAPE, x] + tail;
        assert whole[2..] == tail;
      } else {
        assert whole == [x] + tail;
        assert whole[1..] == tail;
      }
      if s != [] {
        EscapedPrefixIsLiteral(rest, s[1..]);
      }
    }
  }
}
