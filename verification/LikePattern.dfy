/** The user search pattern: wildcards escaped by three replaces, matched by SQL LIKE. */
module LikePattern {
  // ---------- building the pattern ----------

  /** `str::replace` of one character. */
  function Replace(s: string, c: char, to: string): string {
    if s == "" then "" else (if s[0] == c then to else [s[0]]) + Replace(s[1..], c, to)
  }

  function Escaped(q: string): string {
    Replace(Replace(Replace(q, '\\', "\\\\"), '%', "\\%"), '_', "\\_")
  }

  function Pattern(q: string): string {
    "%" + Escaped(q) + "%"
  }

  // ---------- SQL LIKE with ESCAPE '\' ----------

  /** ASCII case folding, the only folding LIKE does. */
  function Fold(c: char): char {
    if 'A' <= c <= 'Z' then (c as int + 32) as char else c
  }

  function FoldAll(s: string): string {
    seq(|s|, i requires 0 <= i < |s| => Fold(s[i]))
  }

  ghost predicate Like(p: string, s: string)
    decreases |p|
  {
    if p == "" then s == ""
    else if p[0] == '\\' then |p| >= 2 && s != "" && Fold(s[0]) == Fold(p[1]) && Like(p[2..], s[1..])
    else if p[0] == '%' then exists n :: 0 <= n <= |s| && Like(p[1..], s[n..])
    else if p[0] == '_' then s != "" && Like(p[1..], s[1..])
    else s != "" && Fold(s[0]) == Fold(p[0]) && Like(p[1..], s[1..])
  }

  // ---------- one pass ----------

  predicate Special(c: char) { c == '\\' || c == '%' || c == '_' }

  /** Each special character gets a backslash, in a single pass. */
  function EscapeOnce(q: string): string {
    if q == "" then "" else (if Special(q[0]) then ['\\', q[0]] else [q[0]]) + EscapeOnce(q[1..])
  }

  lemma {:induction false} ReplaceConcat(a: string, b: string, c: char, to: string)
    ensures Replace(a + b, c, to) == Replace(a, c, to) + Replace(b, c, to)
  {
    if a == "" {
      assert a + b == b;
    } else {
      assert (a + b)[1..] == a[1..] + b;
      ReplaceConcat(a[1..], b, c, to);
    }
  }

  lemma ReplaceOne(x: char, c: char, to: string)
    ensures Replace([x], c, to) == if x == c then to else [x]
  {
    assert Replace([x][1..], c, to) == "";
  }

  lemma ReplaceTwo(x: char, y: char, c: char, to: string)
    requires x != c && y != c
    ensures Replace([x, y], c, to) == [x, y]
  {
    assert [x, y] == [x] + [y];
    ReplaceConcat([x], [y], c, to);
    ReplaceOne(x, c, to);
    ReplaceOne(y, c, to);
  }

  lemma EscapedOne(x: char)
    ensures Escaped([x]) == if Special(x) then ['\\', x] else [x]
  {
    ReplaceOne(x, '\\', "\\\\");
    if x == '\\' {
      ReplaceTwo('\\', '\\', '%', "\\%");
      ReplaceTwo('\\', '\\', '_', "\\_");
    } else {
      ReplaceOne(x, '%', "\\%");
      if x == '%' { ReplaceTwo('\\', '%', '_', "\\_"); } else { ReplaceOne(x, '_', "\\_"); }
    }
  }

  /** The three replaces, in the order the handler does them, are the one-pass escape. */
  lemma {:induction false} EscapedIsOnePass(q: string)
    ensures Escaped(q) == EscapeOnce(q)
  {
    if q != "" {
      var x, rest := [q[0]], q[1..];
      assert q == x + rest;
      ReplaceConcat(x, rest, '\\', "\\\\");
      var x1, r1 := Replace(x, '\\', "\\\\"), Replace(rest, '\\', "\\\\");
      ReplaceConcat(x1, r1, '%', "\\%");
      ReplaceConcat(Replace(x1, '%', "\\%"), Replace(r1, '%', "\\%"), '_', "\\_");
      EscapedOne(q[0]);
      EscapedIsOnePass(rest);
    }
  }

  // ---------- what the pattern matches ----------

  predicate HasPrefix(s: string, q: string) {
    |q| <= |s| && FoldAll(s[..|q|]) == FoldAll(q)
  }

  lemma FoldHead(s: string, q: string)
    requires q != ""
    ensures HasPrefix(s, q) <==> s != "" && Fold(s[0]) == Fold(q[0]) && HasPrefix(s[1..], q[1..])
  {
    if s != "" && |q| <= |s| {
      var a, b := s[..|q|], s[1..][..|q| - 1];
      assert a == [s[0]] + b && q == [q[0]] + q[1..];
      FoldCons(s[0], b);
      FoldCons(q[0], q[1..]);
      assert HasPrefix(s, q) <==> [Fold(s[0])] + FoldAll(b) == [Fold(q[0])] + FoldAll(q[1..]);
      assert ([Fold(s[0])] + FoldAll(b))[1..] == FoldAll(b);
      assert ([Fold(q[0])] + FoldAll(q[1..]))[1..] == FoldAll(q[1..]);
    }
  }

  lemma FoldCons(c: char, s: string)
    ensures FoldAll([c] + s) == [Fold(c)] + FoldAll(s)
  {
  }

  lemma PercentMatchesAll(s: string)
    ensures Like("%", s)
  {
    assert "%"[1..] == "" && s[|s|..] == "";
    assert Like("%"[1..], s[|s|..]);
  }

  /** The escaped query followed by a wildcard matches exactly what starts with the query. */
  lemma {:induction false} PrefixMatch(q: string, s: string)
    ensures Like(EscapeOnce(q) + "%", s) <==> HasPrefix(s, q)
  {
    var p := EscapeOnce(q) + "%";
    if q == "" {
      assert p == "%";
      PercentMatchesAll(s);
      assert FoldAll(s[..0]) == FoldAll("");
    } else {
      var rest := EscapeOnce(q[1..]) + "%";
      FoldHead(s, q);
      if s != "" { PrefixMatch(q[1..], s[1..]); }
      if Special(q[0]) {
        assert p == ['\\', q[0]] + rest;
        assert p[2..] == rest;
      } else {
        assert p == [q[0]] + rest;
        assert p[1..] == rest;
      }
    }
  }

  /** Some stretch of `s` is `q`, up to ASCII case. */
  ghost predicate Contains(s: string, q: string) {
    exists i, j :: 0 <= i <= j <= |s| && FoldAll(s[i..j]) == FoldAll(q)
  }

  lemma ContainsIffPrefix(s: string, q: string)
    ensures Contains(s, q) <==> exists n :: 0 <= n <= |s| && HasPrefix(s[n..], q)
  {
    if Contains(s, q) {
      var i, j :| 0 <= i <= j <= |s| && FoldAll(s[i..j]) == FoldAll(q);
      assert |FoldAll(s[i..j])| == |FoldAll(q)|;
      assert s[i..j] == s[i..][..|q|];
      assert HasPrefix(s[i..], q);
    }
    if n :| 0 <= n <= |s| && HasPrefix(s[n..], q) {
      assert s[n..n + |q|] == s[n..][..|q|];
    }
  }

  lemma PercentMeansSuffix(p: string, s: string)
    ensures Like("%" + p, s) <==> exists n :: 0 <= n <= |s| && Like(p, s[n..])
  {
    assert ("%" + p)[0] == '%' && ("%" + p)[1..] == p;
  }

  /** The search pattern means literal containment: it matches a name exactly when some
      stretch of the name is the query, up to ASCII case, whatever wildcards or backslashes
      the query contains. */
  lemma PatternMeansContains(q: string, s: string)
    ensures Like(Pattern(q), s) <==> exists i: nat :: OccursAt(s, q, i)
  {
    PatternContains(q, s);
    ContainsLetters(s, q);
  }

  /** The two characters are the same but for the case of an ASCII letter. */
  predicate SameLetter(a: char, b: char) {
    || a == b
    || ('A' <= a <= 'Z' && b as int == a as int + 32)
    || ('A' <= b <= 'Z' && a as int == b as int + 32)
  }

  /** The query stands at place `i` of the text, letter by letter. */
  predicate OccursAt(s: string, q: string, i: nat) {
    i + |q| <= |s| && forall k :: 0 <= k < |q| ==> SameLetter(s[i + k], q[k])
  }

  lemma FoldsAlike(a: char, b: char)
    ensures Fold(a) == Fold(b) <==> SameLetter(a, b)
  {
  }

  lemma ContainsLetters(s: string, q: string)
    ensures Contains(s, q) <==> exists i: nat :: OccursAt(s, q, i)
  {
    if Contains(s, q) {
      var i, j :| 0 <= i <= j <= |s| && FoldAll(s[i..j]) == FoldAll(q);
      assert |FoldAll(s[i..j])| == |FoldAll(q)|;
      assert j == i + |q|;
      LettersAt(s, q, i);
    }
    if i: nat :| OccursAt(s, q, i) {
      LettersAt(s, q, i);
      assert FoldAll(s[i..i + |q|]) == FoldAll(q);
    }
  }

  lemma LettersAt(s: string, q: string, i: nat)
    requires i + |q| <= |s|
    ensures FoldAll(s[i..i + |q|]) == FoldAll(q) <==> OccursAt(s, q, i)
  {
    var a, b := FoldAll(s[i..i + |q|]), FoldAll(q);
    forall k | 0 <= k < |q| ensures a[k] == b[k] <==> SameLetter(s[i + k], q[k]) { FoldsAlike(s[i + k], q[k]); }
    if forall k :: 0 <= k < |q| ==> SameLetter(s[i + k], q[k]) {
      assert forall k :: 0 <= k < |q| ==> a[k] == b[k];
    }
  }

  lemma PatternContains(q: string, s: string)
    ensures Like(Pattern(q), s) <==> Contains(s, q)
  {
    EscapedIsOnePass(q);
    var p := EscapeOnce(q) + "%";
    assert Pattern(q) == "%" + p;
    PercentMeansSuffix(p, s);
    ContainsIffPrefix(s, q);
    forall n | 0 <= n <= |s| ensures Like(p, s[n..]) <==> HasPrefix(s[n..], q) {
      PrefixMatch(q, s[n..]);
    }
  }
}
