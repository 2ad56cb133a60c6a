/** pathMatch of common/path.c: wildcard matching, case-insensitive on ASCII letters. */
module PathMatch {

  /** tolower in the C locale. */
  function Lower(c: char): char {
    if 'A' <= c <= 'Z' then c - 'A' + 'a' else c
  }

  /* ---- the language of a pattern ---- */

  /** The pieces of a path one pattern character stands for. */
  predicate Fits(piece: string, c: char) {
    c == '*' || (|piece| == 1 && (c == '?' || Lower(piece[0]) == Lower(c)))
  }

  function Concat(pieces: seq<string>): string {
    if pieces == [] then "" else pieces[0] + Concat(pieces[1..])
  }

  ghost predicate Split(path: string, pattern: string, pieces: seq<string>) {
    && |pieces| == |pattern|
    && Concat(pieces) == path
    && forall i :: 0 <= i < |pieces| ==> Fits(pieces[i], pattern[i])
  }

  /** The path can be cut into one fitting piece per pattern character. */
  ghost predicate InLanguage(path: string, pattern: string) {
    exists pieces :: Split(path, pattern, pieces)
  }

  /* ---- the same, one pattern character at a time ---- */

  ghost predicate Glob(path: string, pattern: string)
    decreases |pattern|
  {
    if pattern == "" then path == ""
    else if pattern[0] == '*' then exists k :: 0 <= k <= |path| && Glob(path[k..], pattern[1..])
    else path != "" && (pattern[0] == '?' || Lower(path[0]) == Lower(pattern[0])) && Glob(path[1..], pattern[1..])
  }

  lemma {:induction false} GlobInLanguage(path: string, pattern: string)
    requires Glob(path, pattern)
    ensures InLanguage(path, pattern)
    decreases |pattern|
  {
    if pattern == "" {
      assert Split(path, pattern, []);
    } else {
      var k: nat := 1;
      if pattern[0] == '*' { k :| 0 <= k <= |path| && Glob(path[k..], pattern[1..]); }
      GlobInLanguage(path[k..], pattern[1..]);
      var rest :| Split(path[k..], pattern[1..], rest);
      SplitCons(path, pattern, k, rest);
    }
  }

  lemma SplitCons(path: string, pattern: string, k: nat, rest: seq<string>)
    requires pattern != "" && k <= |path| && Split(path[k..], pattern[1..], rest)
    requires Fits(path[..k], pattern[0])
    ensures Split(path, pattern, [path[..k]] + rest)
  {
    var pieces := [path[..k]] + rest;
    assert pieces[1..] == rest;
    assert path == path[..k] + path[k..];
  }

  lemma {:induction false} LanguageInGlob(path: string, pattern: string, pieces: seq<string>)
    requires Split(path, pattern, pieces)
    ensures Glob(path, pattern)
    decreases |pattern|
  {
    if pattern != "" {
      var k := |pieces[0]|;
      assert path[..k] == pieces[0] && path[k..] == Concat(pieces[1..]);
      LanguageInGlob(path[k..], pattern[1..], pieces[1..]);
    }
  }

  lemma GlobIsLanguage(path: string, pattern: string)
    ensures Glob(path, pattern) <==> InLanguage(path, pattern)
  {
    if Glob(path, pattern) { GlobInLanguage(path, pattern); }
    if InLanguage(path, pattern) {
      var pieces :| Split(path, pattern, pieces);
      LanguageInGlob(path, pattern, pieces);
    }
  }

  /** A star either takes nothing or takes one more character. */
  lemma StarStep(path: string, i: nat, pattern: string, j: nat)
    requires i <= |path| && j < |pattern| && pattern[j] == '*'
    ensures Glob(path[i..], pattern[j..]) <==>
            Glob(path[i..], pattern[j + 1..]) || (i < |path| && Glob(path[i + 1..], pattern[j..]))
  {
    var p, rest := path[i..], pattern[j + 1..];
    assert pattern[j..][1..] == rest;
    assert p[0..] == p;
    if Glob(p, pattern[j..]) && !Glob(p, rest) {
      var k :| 0 <= k <= |p| && Glob(p[k..], rest);
      assert p[k..] == path[i + 1..][k - 1..];
    }
    if i < |path| && Glob(path[i + 1..], pattern[j..]) {
      var k :| 0 <= k <= |path| - i - 1 && Glob(path[i + 1..][k..], rest);
      assert p[k + 1..] == path[i + 1..][k..];
    }
  }

  lemma CharStep(path: string, i: nat, pattern: string, j: nat)
    requires i <= |path| && j < |pattern| && pattern[j] != '*'
    ensures Glob(path[i..], pattern[j..]) <==>
            i < |path| && (pattern[j] == '?' || Lower(path[i]) == Lower(pattern[j])) && Glob(path[i + 1..], pattern[j + 1..])
  {
    assert pattern[j..][1..] == pattern[j + 1..];
    if i < |path| { assert path[i..][1..] == path[i + 1..]; }
  }

  /* ---- letters ---- */

  /** The same character, or the two cases of one ASCII letter. */
  predicate Alike(a: char, b: char) {
    a == b || ('A' <= a <= 'Z' && b as int == a as int + 32) || ('A' <= b <= 'Z' && a as int == b as int + 32)
  }

  lemma LowerAlike(a: char, b: char)
    ensures Lower(a) == Lower(b) <==> Alike(a, b)
  {
  }

  lemma LowerWild(c: char)
    ensures c == '*' || c == '?' ==> forall d :: Alike(c, d) ==> d == c
  {
  }

  predicate AllAlike(s: string, t: string) { |s| == |t| && forall i :: 0 <= i < |s| ==> Alike(s[i], t[i]) }

  /** Changing the case of letters, in the path or in the pattern, does not change what matches. */
  lemma {:induction false} CaseBlind(path: string, path': string, pattern: string, pattern': string)
    requires AllAlike(path, path') && AllAlike(pattern, pattern')
    ensures Glob(path, pattern) <==> Glob(path', pattern')
    decreases |pattern|
  {
    if pattern != "" {
      LowerWild(pattern[0]);
      LowerWild(pattern'[0]);
      if pattern[0] == '*' {
        forall k | 0 <= k <= |path| ensures Glob(path[k..], pattern[1..]) <==> Glob(path'[k..], pattern'[1..]) {
          CaseBlind(path[k..], path'[k..], pattern[1..], pattern'[1..]);
        }
      } else if path != "" {
        LowerAlike(path[0], path'[0]);
        LowerAlike(pattern[0], pattern'[0]);
        CaseBlind(path[1..], path'[1..], pattern[1..], pattern'[1..]);
      }
    }
  }

  /** A character that is no wildcard matches itself and its other case, and nothing else. */
  lemma LetterMatches(path: string, c: char)
    requires c != '*' && c != '?'
    ensures InLanguage(path, [c]) <==> |path| == 1 && Alike(path[0], c)
  {
    GlobIsLanguage(path, [c]);
    hide InLanguage;
    assert [c][1..] == "";
    if path != "" { LowerAlike(path[0], c); }
  }

  method PathMatch(path: string, pattern: string) returns (matched: bool)
    ensures matched <==> InLanguage(path, pattern)
    decreases |pattern|
  {
    hide Glob, InLanguage;
    GlobIsLanguage(path, pattern);
    var i, j := 0, 0;
    assert path[0..] == path && pattern[0..] == pattern;
    while j < |pattern|
      invariant 0 <= i <= |path| && 0 <= j <= |pattern|
      invariant Glob(path[i..], pattern[j..]) == Glob(path, pattern)
      decreases |path| - i + |pattern| - j
    {
      if pattern[j] == '?' {
        CharStep(path, i, pattern, j);
        if i == |path| { return false; }
        i, j := i + 1, j + 1;
      } else if pattern[j] == '*' {
        StarStep(path, i, pattern, j);
        if i == |path| {
          j := j + 1;
        } else {
          var rest := PathMatch(path[i..], pattern[j + 1..]);
          GlobIsLanguage(path[i..], pattern[j + 1..]);
          if rest { return true; }
          i := i + 1;
        }
      } else {
        CharStep(path, i, pattern, j);
        if i == |path| || Lower(path[i]) != Lower(pattern[j]) { return false; }
        i, j := i + 1, j + 1;
      }
    }
    GlobEnd(path[i..], pattern[j..]);
    return i == |path|;
  }

  lemma GlobEnd(path: string, pattern: string)
    requires pattern == ""
    ensures Glob(path, pattern) == (path == "")
  {
  }
}
