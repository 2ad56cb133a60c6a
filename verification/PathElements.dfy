/** The second pass of pathCanonicalize: elements copied, dropped or cancelled over the same buffer. */
module PathElements {
  import opened PathSpec
  import opened Path

  /** What the buffer holds once an element and the slash after it, if any, are placed. */
  function Placed(abs: bool, cs: seq<string>, slash: bool, last: bool): string {
    if slash && !last then Render(abs, cs) else Format(abs, cs, slash)
  }

  lemma RenderEmpty(abs: bool, cs: seq<string>)
    requires Names(cs)
    ensures |Render(abs, cs)| == 0 <==> cs == [] && !abs
    ensures |Render(abs, cs)| == 1 <==> cs == [] && abs
    ensures cs == [] ==> Render(abs, cs) == if abs then "/" else ""
  {
    if cs != [] { assert IsName(cs[|cs| - 1]); }
  }

  lemma RenderLast(abs: bool, cs: seq<string>)
    requires cs != [] && Names(cs)
    ensures var c := cs[|cs| - 1];
            && Render(abs, cs) == Render(abs, cs[..|cs| - 1]) + c + "/"
            && IsName(c) && Names(cs[..|cs| - 1])
  {
  }

  lemma RenderEndsInSlash(abs: bool, cs: seq<string>)
    requires cs != [] || abs
    ensures |Render(abs, cs)| > 0 && Render(abs, cs)[|Render(abs, cs)| - 1] == '/'
  {
  }

  lemma RenderStartsWithSlash(abs: bool, cs: seq<string>)
    requires Names(cs) && (cs != [] || abs)
    ensures |Render(abs, cs)| > 0 && (Render(abs, cs)[0] == '/' <==> abs)
    decreases |cs|
  {
    if cs != [] {
      RenderLast(abs, cs);
      RenderEmpty(abs, cs[..|cs| - 1]);
      if |cs| > 1 || abs { RenderStartsWithSlash(abs, cs[..|cs| - 1]); }
    }
  }

  lemma RenderPush(abs: bool, cs: seq<string>, c: string)
    ensures Render(abs, cs + [c]) == Render(abs, cs) + c + "/"
    ensures Format(abs, cs + [c], false) == Render(abs, cs) + c
  {
    assert (cs + [c])[..|cs|] == cs;
  }

  /** Dropping the trailing slash of a rendered list formats it. */
  lemma RenderTrim(abs: bool, cs: seq<string>)
    requires cs != []
    ensures Render(abs, cs) == Format(abs, cs, false) + "/"
    ensures Format(abs, cs, true) == Render(abs, cs)
  {
  }

  /** A "." element. */
  method PlaceDot(path: array<char>, i: nat, k0: nat, ghost abs: bool, ghost cs: seq<string>) returns (k: nat)
    requires k0 < i < path.Length && (path[i] == '/' || path[i] == '\0')
    requires path[i] == '/' ==> i + 1 < path.Length
    requires Names(cs) && path[..k0] == Render(abs, cs)
    modifies path
    ensures k <= i + (if old(path[i]) == '/' then 1 else 0)
    ensures forall q :: i <= q < path.Length ==> path[q] == old(path[q])
    ensures path[..k] == Placed(abs, cs, path[i] == '/', path[i] == '/' && path[i + 1] == '\0')
  {
    hide Render, IsName;
    RenderEmpty(abs, cs);
    k := k0;
    if k == 0 {
      if path[i] == '\0' {
        path[0] := '.';
        k := 1;
        assert path[..k] == ".";
      } else if path[i] == '/' && path[i + 1] == '\0' {
        path[0] := '.';
        path[1] := '/';
        k := 2;
        assert path[..k] == "./";
      }
    } else if k > 1 {
      RenderTrim(abs, cs);
      if path[i] == '\0' {
        k := k - 1;
        assert path[..k] == path[..k0][..k];
      }
    }
  }

  /** A name, moved down from path[j..i]. */
  method PlaceName(path: array<char>, j: nat, i: nat, k0: nat, ghost abs: bool, ghost cs: seq<string>) returns (k: nat)
    requires k0 <= j <= i < path.Length && (path[i] == '/' || path[i] == '\0')
    requires path[..k0] == Render(abs, cs)
    modifies path
    ensures k <= i + (if old(path[i]) == '/' then 1 else 0)
    ensures forall q :: i <= q < path.Length ==> path[q] == old(path[q])
    ensures path[..k] == Render(abs, cs) + old(path[j..i]) + (if path[i] == '/' then "/" else "")
  {
    hide Render;
    ghost var name, out := path[j..i], path[..k0];
    k := k0;
    var m := 0;
    while m < i - j
      invariant 0 <= m <= i - j && k == k0 + m
      invariant path[..k0] == out
      invariant forall q :: 0 <= q < m ==> path[k0 + q] == name[q]
      invariant forall q :: j + m <= q < path.Length ==> path[q] == old(path[q])
    {
      path[k] := path[j + m];
      m, k := m + 1, k + 1;
    }
    assert path[..k] == out + name;
    if path[i] == '/' {
      path[k] := '/';
      k := k + 1;
      assert path[..k] == out + name + "/";
    }
  }

  /** Distance from the write position back over the last component and its slash. */
  method LastElement(path: array<char>, k: nat, ghost abs: bool, ghost cs: seq<string>) returns (j: nat)
    requires k <= path.Length && Names(cs) && cs != [] && path[..k] == Render(abs, cs)
    ensures j == |cs[|cs| - 1]| + 1 <= k
    ensures j < k <==> |cs| > 1 || abs
    ensures path[..k - j] == Render(abs, cs[..|cs| - 1])
    ensures path[k - j..k - 1] == cs[|cs| - 1] && path[k - 1] == '/' && 2 <= j
  {
    hide Render;
    ghost var init, c := cs[..|cs| - 1], cs[|cs| - 1];
    ghost var r := Render(abs, init);
    RenderLast(abs, cs);
    RenderEmpty(abs, init);
    assert path[..k] == r + c + "/";
    assert k == |r| + |c| + 1;
    assert forall q :: 0 <= q < |c| ==> path[|r| + q] == path[..k][|r| + q] == c[q];
    assert forall q :: 0 <= q < |r| ==> path[q] == path[..k][q] == r[q];
    if init != [] || abs { RenderEndsInSlash(abs, init); }
    assert path[k - 1] == path[..k][k - 1];
    assert c in cs;
    j := BackToSlash(path, k, |c|);
  }

  /** Steps back from a slash over n other characters to the slash or the start before them. */
  method BackToSlash(path: array<char>, k: nat, ghost n: nat) returns (j: nat)
    requires n < k <= path.Length
    requires forall q :: k - 1 - n <= q < k - 1 ==> path[q] != '/'
    requires n + 1 < k ==> path[k - n - 2] == '/'
    ensures j == n + 1
  {
    j := 1;
    while j < k && path[k - j - 1] != '/'
      invariant 1 <= j <= n + 1
    {
      j := j + 1;
    }
  }

  method AppendDots(path: array<char>, i: nat, k0: nat) returns (k: nat)
    requires k0 + 2 <= i < path.Length
    modifies path
    ensures k <= i + (if old(path[i]) == '/' then 1 else 0)
    ensures forall q :: i <= q < path.Length ==> path[q] == old(path[q])
    ensures path[..k] == old(path[..k0]) + ".." + (if path[i] == '/' then "/" else "")
  {
    path[k0] := '.';
    path[k0 + 1] := '.';
    k := k0 + 2;
    if path[i] == '/' {
      path[k] := '/';
      k := k + 1;
    }
  }

  /** A ".." element. */
  method PlaceDotDot(path: array<char>, i: nat, k0: nat, ghost abs: bool, ghost cs: seq<string>) returns (k: nat)
    requires k0 + 2 <= i < path.Length && (path[i] == '/' || path[i] == '\0')
    requires path[i] == '/' ==> i + 1 < path.Length
    requires Names(cs) && path[..k0] == Render(abs, cs)
    modifies path
    ensures k <= i + (if old(path[i]) == '/' then 1 else 0)
    ensures forall q :: i <= q < path.Length ==> path[q] == old(path[q])
    ensures path[..k] == Placed(abs, Step(abs, cs, ".."), path[i] == '/', path[i] == '/' && path[i + 1] == '\0')
  {
    hide Render, IsName, TwoDots;
    RenderEmpty(abs, cs);
    k := k0;
    if k == 0 {
      k := AppendDots(path, i, k);
      PlacedDots(abs, cs, path[i] == '/', path[i] == '/' && path[i + 1] == '\0');
    } else if k > 1 {
      k := PlaceParent(path, i, k, abs, cs);
    }
  }

  /** A ".." element after at least one component. */
  method PlaceParent(path: array<char>, i: nat, k0: nat, ghost abs: bool, ghost cs: seq<string>) returns (k: nat)
    requires k0 + 2 <= i < path.Length && (path[i] == '/' || path[i] == '\0')
    requires path[i] == '/' ==> i + 1 < path.Length
    requires Names(cs) && cs != [] && path[..k0] == Render(abs, cs)
    modifies path
    ensures k <= i + (if old(path[i]) == '/' then 1 else 0)
    ensures forall q :: i <= q < path.Length ==> path[q] == old(path[q])
    ensures path[..k] == Placed(abs, Step(abs, cs, ".."), path[i] == '/', path[i] == '/' && path[i + 1] == '\0')
  {
    hide Render, IsName, TwoDots, Placed;
    k := k0;
    var j := LastElement(path, k, abs, cs);
    if j < k {
      var dots := BeginsWithDots(path, k - j, k, cs[|cs| - 1]);
      if dots {
        k := AppendDots(path, i, k);
        PlacedDots(abs, cs, path[i] == '/', path[i] == '/' && path[i + 1] == '\0');
      } else {
        k := Cancel(path, i, k, j, abs, cs);
      }
    } else if k == 3 && path[0] == '.' && path[1] == '.' {
      assert path[..k - 1] == "..";
      k := AppendDots(path, i, k);
      PlacedDots(abs, cs, path[i] == '/', path[i] == '/' && path[i + 1] == '\0');
    } else {
      SingleDots(path[..k - 1], cs[0]);
      k := CancelOnly(path, i);
    }
  }

  lemma PlacedDots(abs: bool, cs: seq<string>, slash: bool, last: bool)
    ensures Placed(abs, cs + [".."], slash, last) == Render(abs, cs) + ".." + (if slash then "/" else "")
  {
    hide Render;
    RenderPush(abs, cs, "..");
  }

  method BeginsWithDots(path: array<char>, from: nat, to: nat, ghost c: string) returns (dots: bool)
    requires from + 2 <= to <= path.Length && path[from..to - 1] == c && path[to - 1] == '/'
    ensures dots == TwoDots(c)
  {
    dots := path[from] == '.' && path[from + 1] == '.';
    assert path[from..to] == c + "/";
    TwoDotsAt(c, path[from..to]);
  }

  lemma TwoDotsAt(c: string, d: string)
    requires c != "" && d == c + "/"
    ensures TwoDots(c) <==> d[0] == '.' && d[1] == '.'
  {
  }

  lemma SingleDots(p: string, c: string)
    requires p == c
    ensures c == ".." <==> |p| == 2 && p[0] == '.' && p[1] == '.'
  {
  }

  /** Drops the last component, keeping the root slash and a slash the element is followed by. */
  method Cancel(path: array<char>, i: nat, k0: nat, j: nat, ghost abs: bool, ghost cs: seq<string>) returns (k: nat)
    requires k0 + 2 <= i < path.Length && j < k0
    requires path[i] == '/' ==> i + 1 < path.Length
    requires cs != [] && Names(cs) && (|cs| > 1 || abs)
    requires path[..k0 - j] == Render(abs, cs[..|cs| - 1])
    modifies path
    ensures k <= i + (if old(path[i]) == '/' then 1 else 0)
    ensures forall q :: i <= q < path.Length ==> path[q] == old(path[q])
    ensures path[..k] == Placed(abs, cs[..|cs| - 1], path[i] == '/', path[i] == '/' && path[i + 1] == '\0')
  {
    hide Render, IsName;
    ghost var init := cs[..|cs| - 1];
    RenderEmpty(abs, init);
    RenderEndsInSlash(abs, init);
    if init != [] {
      RenderTrim(abs, init);
      RenderStartsWithSlash(abs, init);
    }
    k := k0 - j - 1;
    assert path[..k] == path[..k + 1][..k];
    if k == 0 && path[0] == '/' {
      path[k] := '/';
      k := k + 1;
    } else if path[i] == '/' {
      ghost var out := path[..k];
      path[k] := '/';
      k := k + 1;
      assert path[..k] == out + "/";
    }
  }

  /** Drops the only component of a relative path. */
  method CancelOnly(path: array<char>, i: nat) returns (k: nat)
    requires 2 <= i < path.Length && (path[i] == '/' || path[i] == '\0')
    requires path[i] == '/' ==> i + 1 < path.Length
    modifies path
    ensures k <= i + (if old(path[i]) == '/' then 1 else 0)
    ensures forall q :: i <= q < path.Length ==> path[q] == old(path[q])
    ensures path[..k] == Placed(false, [], path[i] == '/', path[i] == '/' && path[i + 1] == '\0')
  {
    k := 0;
    if path[i] == '\0' {
      path[0] := '.';
      k := 1;
      assert path[..k] == ".";
    } else if path[i] == '/' && path[i + 1] == '\0' {
      path[0] := '.';
      path[1] := '/';
      k := 2;
      assert path[..k] == "./";
    }
  }

  /** Places the element path[j..i] by its kind. */
  method PlaceElement(path: array<char>, j: nat, i: nat, k0: nat, ghost abs: bool, ghost cs: seq<string>) returns (k: nat)
    requires k0 <= j <= i < path.Length && (path[i] == '/' || path[i] == '\0')
    requires path[i] == '/' ==> i + 1 < path.Length
    requires Names(cs) && path[..k0] == Render(abs, cs)
    modifies path
    ensures k <= i + (if old(path[i]) == '/' then 1 else 0)
    ensures forall q :: i <= q < path.Length ==> path[q] == old(path[q])
    ensures var slash := path[i] == '/';
            path[..k] == if j == i then Render(abs, cs) + (if slash then "/" else "")
                         else Placed(abs, Step(abs, cs, old(path[j..i])), slash, slash && path[i + 1] == '\0')
  {
    hide Render, IsName, Blocks;
    ghost var name := path[j..i];
    if i - j == 1 && path[j] == '.' {
      assert name == ".";
      k := PlaceDot(path, i, k0, abs, cs);
    } else if i - j == 2 && path[j] == '.' && path[j + 1] == '.' {
      assert name == "..";
      k := PlaceDotDot(path, i, k0, abs, cs);
    } else {
      k := PlaceName(path, j, i, k0, abs, cs);
      assert name != "." && name != "..";
      RenderPush(abs, cs, name);
      assert Render(abs, cs) + "" + "/" == Render(abs, cs) + "/";
      assert Render(abs, cs) + name + "" == Render(abs, cs) + name;
    }
  }
}
