/** pathCanonicalize as a whole: the buffer ends up holding the canonical form. */
module PathCanonicalize {
  import opened PathSpec
  import opened Path
  import opened PathElements

  lemma TokenThenSlash(s: string, j: nat, i: nat)
    requires j <= i < |s| && Separator(s[i])
    requires forall q :: j <= q < i ==> !Separator(s[q])
    ensures Components(s[j..]) == (if j == i then [] else [s[j..i]]) + Components(s[i + 1..])
  {
    assert s[i..][1..] == s[i + 1..];
    if j < i {
      assert s[j..] == s[j..i] + s[i..];
      ComponentsHead(s[j..i], s[i..]);
    }
  }

  lemma LastToken(s: string, j: nat)
    requires j < |s| && forall q :: j <= q < |s| ==> !Separator(s[q])
    ensures Components(s[j..]) == [s[j..]]
  {
    ComponentsOfLastName(s[j..]);
  }

  lemma ReduceSnoc(abs: bool, cs: seq<string>, c: string)
    ensures Reduce(abs, cs + [c]) == Step(abs, Reduce(abs, cs), c)
  {
    assert (cs + [c])[..|cs|] == cs;
  }

  /** Progress at the start of a token: j characters of s are consumed, the components in done reduced. */
  ghost predicate Progress(s: string, j: nat, done: seq<string>, root: bool) {
    && j <= |s|
    && Components(s) == done + Components(s[j..])
    && (j == 0 ==> done == [])
    && root == (j > 0 && IsAbsolute(s))
    && (0 < j ==> s[j - 1] == '/')
  }

  /** A token that is followed by a slash. */
  lemma ProgressStep(s: string, j: nat, i: nat, done: seq<string>, root: bool)
    requires Collapsed(s) && Progress(s, j, done, root)
    requires j <= i < |s| && s[i] == '/'
    requires forall q :: j <= q < i ==> !Separator(s[q])
    ensures j == i ==> j == 0 && Progress(s, 1, done, true) && !root && IsAbsolute(s)
    ensures j < i ==> IsName(s[j..i]) && root == IsAbsolute(s) && Progress(s, i + 1, done + [s[j..i]], root)
    ensures i + 1 < |s| ==> s[i + 1] != '/'
  {
    TokenThenSlash(s, j, i);
    if j < i {
      assert done + ([s[j..i]] + Components(s[i + 1..])) == done + [s[j..i]] + Components(s[i + 1..]);
    } else {
      assert [] + Components(s[i + 1..]) == Components(s[i + 1..]);
    }
  }

  /** The string is finished by a slash. */
  lemma FinishedBySlash(s: string, j: nat, i: nat, done: seq<string>, root: bool)
    requires Collapsed(s) && Progress(s, j, done, root)
    requires j <= i && i + 1 == |s| && s[i] == '/'
    requires forall q :: j <= q < i ==> !Separator(s[q])
    ensures j == i ==> Canonical(s) == "/"
    ensures j < i ==> Canonical(s) == Placed(root, Step(root, Reduce(root, done), s[j..i]), true, true)
  {
    ProgressStep(s, j, i, done, root);
    assert Components(s[i + 1..]) == [];
    if j < i {
      ReduceSnoc(root, done, s[j..i]);
      assert Components(s) == done + [s[j..i]];
    } else {
      assert Components(s) == done == [];
    }
  }

  lemma FinishedByName(s: string, j: nat, done: seq<string>, root: bool)
    requires Collapsed(s) && Progress(s, j, done, root) && j < |s|
    requires forall q :: j <= q < |s| ==> !Separator(s[q])
    ensures root == IsAbsolute(s) && IsName(s[j..])
    ensures Canonical(s) == Placed(root, Step(root, Reduce(root, done), s[j..]), false, false)
  {
    LastToken(s, j);
    ReduceSnoc(root, done, s[j..]);
  }

  /** Places the token path[j..i], which a slash or the end of the string follows. */
  method PlaceToken(path: array<char>, ghost n: nat, ghost s: string, j: nat, i: nat, k0: nat,
                    ghost done: seq<string>, ghost root: bool)
    returns (k: nat, ghost done': seq<string>, ghost root': bool)
    requires n < path.Length && path[n] == '\0' && |s| == n && NoNul(s) && Collapsed(s)
    requires k0 <= j <= i <= n && Progress(s, j, done, root) && Names(done) && (j < i || j == 0)
    requires path[..k0] == Render(root, Reduce(root, done))
    requires forall q :: j <= q < n ==> path[q] == s[q]
    requires forall q :: j <= q < i ==> !Separator(s[q])
    requires path[i] == '/' || path[i] == '\0'
    modifies path
    ensures forall q :: i <= q < path.Length ==> path[q] == old(path[q])
    ensures if i + 1 < n then path[i] == '/' && k <= i + 1 && path[..k] == Render(root', Reduce(root', done'))
            else k <= n && path[..k] == Canonical(s)
    ensures i + 1 < n ==> Progress(s, i + 1, done', root') && Names(done') && s[i + 1] != '/'
  {
    hide Canonical, Reduce, Step, Render, Components, Collapsed, IsName, Progress;
    ghost var cs, slash, name := Reduce(root, done), path[i] == '/', s[j..i];
    done', root' := done, root;
    assert path[j..i] == name;
    ReducedNames(root, done);
    k := PlaceElement(path, j, i, k0, root, cs);
    TokenDone(s, j, i, done, root, slash);
    if slash {
      if j < i {
        done' := done + [name];
        ReduceSnoc(root, done, name);
      } else {
        root' := true;
        assert Render(root, cs) + "/" == "/";
      }
    }
  }

  lemma ReducedNames(abs: bool, cs: seq<string>)
    requires Names(cs)
    ensures Names(Reduce(abs, cs))
  {
    ReduceNormal(abs, cs);
  }

  /** What the token's end makes of the progress. */
  lemma TokenDone(s: string, j: nat, i: nat, done: seq<string>, root: bool, slash: bool)
    requires Collapsed(s) && Progress(s, j, done, root) && j <= i <= |s| && (j < i || j == 0)
    requires forall q :: j <= q < i ==> !Separator(s[q])
    requires if slash then i < |s| && s[i] == '/' else i == |s|
    ensures slash && j == i ==> j == 0 && !root && done == [] && Render(false, Reduce(false, [])) == ""
    ensures slash && j == i && i + 1 < |s| ==> Progress(s, 1, done, true) && s[1] != '/' && Render(true, Reduce(true, [])) == "/"
    ensures slash && j == i && i + 1 == |s| ==> Canonical(s) == "/"
    ensures j < i ==> IsName(s[j..i])
    ensures slash && j < i && i + 1 < |s| ==> Progress(s, i + 1, done + [s[j..i]], root) && s[i + 1] != '/'
    ensures j < i && i + (if slash then 1 else 0) == |s| ==>
              Canonical(s) == Placed(root, Step(root, Reduce(root, done), s[j..i]), slash, slash)
    ensures !slash && j == i ==> Canonical(s) == Render(root, Reduce(root, done))
  {
    hide Canonical, Reduce, Step, Render, Components, Collapsed, IsName, Placed;
    Start(s);
    if slash {
      ProgressStep(s, j, i, done, root);
      if i + 1 == |s| { FinishedBySlash(s, j, i, done, root); }
    } else if j < i {
      assert s[j..i] == s[j..];
      FinishedByName(s, j, done, root);
    } else {
      assert s == "";
    }
  }

  /** The second pass over a collapsed string. */
  method CanonicalizeElements(path: array<char>, ghost n: nat) returns (k: nat)
    requires n < path.Length && path[n] == '\0' && NoNul(path[..n]) && Collapsed(path[..n])
    modifies path
    ensures k <= n && path[..k] == Canonical(old(path[..n])) && path[k] == '\0'
    ensures forall q :: n < q < path.Length ==> path[q] == old(path[q])
  {
    hide Canonical, Reduce, Step, Render, Components, Collapsed, IsName, Placed, Progress;
    ghost var s := path[..n];
    ghost var done: seq<string>, root := [], false;
    var i, j := 0, 0;
    k := 0;
    var more := true;
    Start(s);
    while more
      invariant 0 <= k <= j <= i && j <= n
      invariant more ==> i <= n && Progress(s, j, done, root) && Names(done) && (j < i || j == 0)
      invariant more ==> path[..k] == Render(root, Reduce(root, done))
      invariant more ==> forall q :: j <= q < i ==> !Separator(s[q])
      invariant forall q :: j <= q < path.Length ==> path[q] == old(path[q])
      invariant !more ==> k <= n && path[..k] == Canonical(s)
      decreases more, n - i
    {
      if path[i] == '/' || path[i] == '\0' {
        k, done, root := PlaceToken(path, n, s, j, i, k, done, root);
        ghost var end := i;
        while path[i] == '/'
          invariant end <= i <= end + 1 && i <= n
          decreases n - i
        {
          i := i + 1;
        }
        j := i;
      }
      if i < n { SlashOnly(s, i); }
      more := path[i] != '\0';
      i := i + 1;
    }
    path[k] := '\0';
  }

  lemma SlashOnly(s: string, i: nat)
    requires Collapsed(s) && i < |s|
    ensures Separator(s[i]) ==> s[i] == '/'
  {
  }

  lemma Start(s: string)
    ensures Progress(s, 0, [], false)
    ensures Render(false, Reduce(false, [])) == "" && Render(true, Reduce(true, [])) == "/"
    ensures Canonical("") == ""
  {
    assert s[0..] == s && [] + Components(s) == Components(s);
  }

  /** Rewrites the string in a buffer to its canonical form; the buffer past the old terminator is untouched. */
  method PathCanonicalize(path: array<char>, ghost n: nat)
    requires n < path.Length && path[n] == '\0' && NoNul(path[..n])
    modifies path
    ensures CString(path[..]) == Canonical(old(CString(path[..])))
    ensures |CString(path[..])| <= n
    ensures forall q :: n < q < path.Length ==> path[q] == old(path[q])
  {
    hide Canonical, Collapse, Collapsed;
    ghost var p := path[..n];
    CStringAt(path[..], n);
    assert path[..][..n] == p;
    var m := CollapseSeparators(path, n);
    CollapseCollapsed(p);
    CollapseNoNul(p);
    CollapseCanonical(p);
    var k := CanonicalizeElements(path, m);
    CanonicalNoNul(Collapse(p));
    CStringAt(path[..], k);
    assert path[..][..k] == path[..k];
  }

  lemma {:induction false} CollapseNoNul(p: string)
    requires NoNul(p)
    ensures NoNul(Collapse(p))
    decreases |p|
  {
    if p != "" { CollapseNoNul(if Separator(p[0]) then SkipSeparators(p) else p[1..]); }
  }

  lemma {:induction false} ComponentsNoNul(p: string)
    requires NoNul(p)
    ensures forall c :: c in Components(p) ==> NoNul(c)
    decreases |p|
  {
    if p != "" {
      if Separator(p[0]) { ComponentsNoNul(p[1..]); } else { ComponentsNoNul(p[NameEnd(p)..]); }
    }
  }

  lemma {:induction false} ReduceNoNul(abs: bool, cs: seq<string>)
    requires forall c :: c in cs ==> NoNul(c)
    ensures forall c :: c in Reduce(abs, cs) ==> NoNul(c)
    decreases |cs|
  {
    hide NoNul, Blocks;
    if cs != [] {
      ReduceNoNul(abs, cs[..|cs| - 1]);
      assert cs[|cs| - 1] in cs;
    }
  }

  lemma {:induction false} RenderNoNul(abs: bool, cs: seq<string>)
    requires forall c :: c in cs ==> NoNul(c)
    ensures NoNul(Render(abs, cs))
    decreases |cs|
  {
    if cs != [] {
      RenderNoNul(abs, cs[..|cs| - 1]);
      assert cs[|cs| - 1] in cs;
    }
  }

  lemma CanonicalNoNul(p: string)
    requires NoNul(p)
    ensures NoNul(Canonical(p))
  {
    if p != "" {
      var abs := IsAbsolute(p);
      var cs := Reduce(abs, Components(p));
      ComponentsNoNul(p);
      ReduceNoNul(abs, Components(p));
      RenderNoNul(abs, cs);
      if cs != [] {
        RenderNoNul(abs, cs[..|cs| - 1]);
        assert cs[|cs| - 1] in cs;
      }
    }
  }
}
