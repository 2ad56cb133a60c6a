/** pathCanonicalize of common/path.c: two passes over one NUL-terminated buffer, in place. */
module Path {
  import opened PathSpec

  /** The string a buffer holds: everything before the first NUL. */
  function CString(b: seq<char>): string {
    if b == [] || b[0] == '\0' then "" else [b[0]] + CString(b[1..])
  }

  lemma {:induction false} CStringAt(b: seq<char>, n: nat)
    requires n < |b| && b[n] == '\0' && forall i :: 0 <= i < n ==> b[i] != '\0'
    ensures CString(b) == b[..n]
    decreases n
  {
    if n > 0 {
      CStringAt(b[1..], n - 1);
      assert b[..n] == [b[0]] + b[1..][..n - 1];
    }
  }

  predicate NoNul(p: string) { forall i :: 0 <= i < |p| ==> p[i] != '\0' }

  /* ---- first pass: separators to single slashes ---- */

  /** Every run of separators becomes one slash. */
  function Collapse(p: string): (s: string)
    ensures |s| <= |p|
    ensures s == "" <==> p == ""
    decreases |p|
  {
    if p == "" then ""
    else if Separator(p[0]) then "/" + Collapse(SkipSeparators(p))
    else [p[0]] + Collapse(p[1..])
  }

  function SkipSeparators(p: string): (s: string)
    ensures |s| <= |p| && (p != "" && Separator(p[0]) ==> |s| < |p|)
    ensures s == "" || !Separator(s[0])
    ensures s == p[|p| - |s|..]
    decreases |p|
  {
    if p != "" && Separator(p[0]) then SkipSeparators(p[1..]) else p
  }

  /** A collapsed string: slashes only, none doubled. */
  predicate Collapsed(s: string) {
    && (forall i :: 0 <= i < |s| && Separator(s[i]) ==> s[i] == '/')
    && (forall i :: 0 <= i < |s| - 1 && s[i] == '/' ==> s[i + 1] != '/')
  }

  lemma {:induction false} CollapseCollapsed(p: string)
    ensures Collapsed(Collapse(p))
    ensures p != "" ==> (Collapse(p)[0] == '/' <==> Separator(p[0]))
    decreases |p|
  {
    if p != "" {
      var rest := if Separator(p[0]) then SkipSeparators(p) else p[1..];
      CollapseCollapsed(rest);
      var s, r := Collapse(p), Collapse(rest);
      assert forall i :: 0 <= i < |r| ==> s[i + 1] == r[i];
    }
  }

  lemma {:induction false} SkipKeepsComponents(p: string)
    ensures Components(SkipSeparators(p)) == Components(p)
    decreases |p|
  {
    if p != "" && Separator(p[0]) { SkipKeepsComponents(p[1..]); }
  }

  lemma SkipKeepsEnd(p: string)
    requires IsAbsolute(p)
    ensures if SkipSeparators(p) == "" then EndsInSeparator(p)
            else EndsInSeparator(SkipSeparators(p)) == EndsInSeparator(p)
  {
    if SkipSeparators(p) == "" { AllSkipped(p); }
  }

  lemma {:induction false} AllSkipped(p: string)
    requires SkipSeparators(p) == "" && p != ""
    ensures EndsInSeparator(p)
    decreases |p|
  {
    if |p| > 1 {
      AllSkipped(p[1..]);
    }
  }

  lemma {:induction false} CollapseName(c: string, rest: string)
    requires forall i :: 0 <= i < |c| ==> !Separator(c[i])
    ensures Collapse(c + rest) == c + Collapse(rest)
    decreases |c|
  {
    hide SkipSeparators;
    if c == "" {
      assert c + rest == rest;
    } else {
      assert (c + rest)[0] == c[0] && (c + rest)[1..] == c[1..] + rest;
      CollapseName(c[1..], rest);
      assert c == [c[0]] + c[1..];
    }
  }

  lemma ComponentsHead(c: string, rest: string)
    requires IsName(c)
    requires rest == "" || Separator(rest[0])
    ensures Components(c + rest) == [c] + Components(rest)
  {
    NameEndAt(c, rest);
    assert (c + rest)[..|c|] == c && (c + rest)[|c|..] == rest;
  }

  /** Collapsing keeps the components. */
  lemma {:induction false} CollapseComponents(p: string)
    ensures Components(Collapse(p)) == Components(p)
    decreases |p|
  {
    if p == "" {
    } else if Separator(p[0]) {
      var rest := SkipSeparators(p);
      CollapseComponents(rest);
      SkipKeepsComponents(p);
      assert Collapse(p)[1..] == Collapse(rest);
    } else {
      var n := NameEnd(p);
      var c, rest := p[..n], p[n..];
      assert p == c + rest;
      CollapseName(c, rest);
      CollapseComponents(rest);
      CollapseCollapsed(rest);
      ComponentsHead(c, rest);
      ComponentsHead(c, Collapse(rest));
    }
  }

  /** Collapsing keeps how the path ends. */
  lemma {:induction false} CollapseEnd(p: string)
    ensures EndsInSeparator(Collapse(p)) == EndsInSeparator(p)
    decreases |p|
  {
    if p != "" {
      var rest := if Separator(p[0]) then SkipSeparators(p) else p[1..];
      CollapseEnd(rest);
      if Separator(p[0]) { SkipKeepsEnd(p); }
    }
  }

  lemma CollapseCanonical(p: string)
    ensures Canonical(Collapse(p)) == Canonical(p)
  {
    CollapseComponents(p);
    CollapseEnd(p);
    CollapseCollapsed(p);
  }

  lemma SkipStep(p: string, i: nat)
    requires i < |p|
    ensures SkipSeparators(p[i..]) == if Separator(p[i]) then SkipSeparators(p[i + 1..]) else p[i..]
  {
    assert p[i..][1..] == p[i + 1..];
  }

  lemma CollapseStep(p: string, i: nat, out: string)
    requires i < |p|
    ensures if Separator(p[i]) then out + "/" + Collapse(SkipSeparators(p[i..])) == out + Collapse(p[i..])
            else out + [p[i]] + Collapse(p[i + 1..]) == out + Collapse(p[i..])
  {
    hide SkipSeparators;
    assert p[i..][1..] == p[i + 1..];
  }

  method CollapseSeparators(path: array<char>, ghost n: nat) returns (k: nat)
    requires n < path.Length && path[n] == '\0' && NoNul(path[..n])
    modifies path
    ensures k <= n && path[..k] == Collapse(old(path[..n])) && path[k] == '\0'
    ensures forall q :: n <= q < path.Length ==> path[q] == old(path[q])
  {
    hide Collapse, SkipSeparators;
    ghost var p := path[..n];
    var i := 0;
    k := 0;
    assert p[0..] == p;
    assert path[..0] == [];
    while path[i] != '\0'
      invariant 0 <= k <= i <= n
      invariant forall q :: i <= q < path.Length ==> path[q] == old(path[q])
      invariant path[..k] + Collapse(p[i..]) == Collapse(p)
      decreases n - i
    {
      ghost var out := path[..k];
      CollapseStep(p, i, out);
      if path[i] == '/' || path[i] == '\\' {
        path[k] := '/';
        k := k + 1;
        assert path[..k] == out + "/";
        i := SkipRun(path, i, n, p);
      } else {
        path[k] := path[i];
        k, i := k + 1, i + 1;
        assert path[..k] == out + [p[i - 1]];
      }
    }
    CollapseEmpty(p[i..]);
    path[k] := '\0';
  }

  lemma CollapseEmpty(p: string)
    ensures p == "" ==> Collapse(p) == ""
  {
  }

  /** Moves past the separators at i, the first of which may already have been rewritten to a slash. */
  method SkipRun(path: array<char>, i0: nat, ghost n: nat, ghost p: string) returns (i: nat)
    requires n < path.Length && |p| == n && i0 < n && path[n] == '\0'
    requires forall q :: i0 < q < n ==> path[q] == p[q]
    requires Separator(path[i0]) && Separator(p[i0])
    ensures i0 < i <= n && p[i..] == SkipSeparators(p[i0..])
  {
    hide SkipSeparators;
    i := i0;
    while path[i] == '/' || path[i] == '\\'
      invariant i0 <= i <= n
      invariant SkipSeparators(p[i..]) == SkipSeparators(p[i0..])
      decreases n - i
    {
      assert Separator(p[i]);
      SkipStep(p, i);
      i := i + 1;
    }
    SkipDone(p, i);
  }

  lemma SkipDone(p: string, i: nat)
    requires i <= |p| && (i < |p| ==> !Separator(p[i]))
    ensures SkipSeparators(p[i..]) == p[i..]
  {
    if i < |p| { SkipStep(p, i); } else { SkipEmpty(p[i..]); }
  }

  lemma SkipEmpty(p: string)
    ensures p == "" ==> SkipSeparators(p) == ""
  {
  }
}
