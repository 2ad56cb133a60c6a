/** What a path means, and the canonical form of one: the reference for common/path.c. */
module PathSpec {

  predicate Separator(c: char) { c == '/' || c == '\\' }

  /** Position of the first separator, or the length. */
  function NameEnd(p: string): (n: nat)
    ensures n <= |p|
    ensures forall i :: 0 <= i < n ==> !Separator(p[i])
    ensures n < |p| ==> Separator(p[n])
  {
    if p == "" || Separator(p[0]) then 0 else 1 + NameEnd(p[1..])
  }

  /** The non-empty names between separators, in order. */
  function Components(p: string): (cs: seq<string>)
    ensures forall c :: c in cs ==> IsName(c)
    decreases |p|
  {
    if p == "" then []
    else if Separator(p[0]) then Components(p[1..])
    else
      var n := NameEnd(p);
      [p[..n]] + Components(p[n..])
  }

  predicate IsName(c: string) {
    c != "" && forall i :: 0 <= i < |c| ==> !Separator(c[i])
  }

  predicate IsAbsolute(p: string) { p != "" && Separator(p[0]) }

  predicate EndsInSeparator(p: string) { p != "" && Separator(p[|p| - 1]) }

  /* ---- meaning: a walk over a stack of directory names ---- */

  /** Where one component leads; the parent of the root is the root. */
  function Enter(dir: seq<string>, c: string): seq<string> {
    if c == "." then dir
    else if c == ".." then (if dir == [] then [] else dir[..|dir| - 1])
    else dir + [c]
  }

  function Walk(dir: seq<string>, cs: seq<string>): seq<string>
    decreases |cs|
  {
    if cs == [] then dir else Enter(Walk(dir, cs[..|cs| - 1]), cs[|cs| - 1])
  }

  /** The directory stack a path names when taken from directory dir. */
  function Resolve(dir: seq<string>, p: string): seq<string> {
    Walk(if IsAbsolute(p) then [] else dir, Components(p))
  }

  /* ---- the canonical form ---- */

  predicate TwoDots(c: string) { |c| >= 2 && c[0] == '.' && c[1] == '.' }

  /** Whether ".." after these components must be kept. Past the first relative
      component, any name that merely begins with two dots is taken for "..". */
  predicate Blocks(abs: bool, cs: seq<string>) {
    if cs == [] then !abs
    else if |cs| == 1 && !abs then cs[0] == ".."
    else TwoDots(cs[|cs| - 1])
  }

  function Step(abs: bool, cs: seq<string>, c: string): seq<string> {
    if c == "." then cs
    else if c == ".." && !Blocks(abs, cs) then (if cs == [] then [] else cs[..|cs| - 1])
    else cs + [c]
  }

  function Reduce(abs: bool, cs: seq<string>): seq<string>
    decreases |cs|
  {
    if cs == [] then [] else Step(abs, Reduce(abs, cs[..|cs| - 1]), cs[|cs| - 1])
  }

  /** Each component followed by a slash, after the root slash if any. */
  function Render(abs: bool, cs: seq<string>): string
    decreases |cs|
  {
    if cs == [] then (if abs then "/" else "")
    else Render(abs, cs[..|cs| - 1]) + cs[|cs| - 1] + "/"
  }

  function Format(abs: bool, cs: seq<string>, slash: bool): (s: string)
  {
    if cs == [] then (if abs then "/" else if slash then "./" else ".")
    else if slash then Render(abs, cs)
    else Render(abs, cs[..|cs| - 1]) + cs[|cs| - 1]
  }

  function Canonical(p: string): string {
    if p == "" then ""
    else Format(IsAbsolute(p), Reduce(IsAbsolute(p), Components(p)), EndsInSeparator(p))
  }

  /* ---- components of a rendered path ---- */

  lemma ComponentsOfName(c: string, rest: string)
    requires IsName(c)
    ensures Components(c + "/" + rest) == [c] + Components(rest)
  {
    var p := c + "/" + rest;
    NameEndAt(c, "/" + rest);
    assert p == c + ("/" + rest);
    assert p[..|c|] == c && p[|c|..] == "/" + rest;
    assert ("/" + rest)[1..] == rest;
  }

  lemma NameEndAt(c: string, rest: string)
    requires IsName(c) || c == ""
    requires rest == "" || Separator(rest[0])
    ensures NameEnd(c + rest) == |c|
  {
    if c != "" {
      assert (c + rest)[1..] == c[1..] + rest;
      NameEndAt(c[1..], rest);
    } else {
      assert c + rest == rest;
    }
  }

  lemma ComponentsOfLastName(c: string)
    requires IsName(c)
    ensures Components(c) == [c]
  {
    NameEndAt(c, "");
    assert c + "" == c;
    assert c[..|c|] == c && c[|c|..] == "";
  }

  /** Splitting after a separator splits the components. */
  lemma {:induction false} ComponentsAppend(p: string, q: string)
    requires p == "" || EndsInSeparator(p)
    ensures Components(p + q) == Components(p) + Components(q)
    decreases |p|
  {
    if p == "" {
      assert p + q == q;
    } else if Separator(p[0]) {
      assert (p + q)[1..] == p[1..] + q;
      ComponentsAppend(p[1..], q);
    } else {
      var n := NameEnd(p);
      assert n < |p|;
      NameEndAt(p[..n], p[n..] + q);
      assert p[..n] + (p[n..] + q) == p + q;
      assert (p + q)[..n] == p[..n] && (p + q)[n..] == p[n..] + q;
      ComponentsAppend(p[n..], q);
    }
  }

  predicate Names(cs: seq<string>) { forall c :: c in cs ==> IsName(c) }

  lemma {:induction false} ComponentsOfRender(abs: bool, cs: seq<string>)
    requires Names(cs)
    ensures Components(Render(abs, cs)) == cs
    ensures Render(abs, cs) == "" || EndsInSeparator(Render(abs, cs))
    ensures IsAbsolute(Render(abs, cs)) == abs
    decreases |cs|
  {
    if cs != [] {
      var init, c := cs[..|cs| - 1], cs[|cs| - 1];
      assert cs == init + [c];
      ComponentsOfRender(abs, init);
      assert Render(abs, cs) == Render(abs, init) + (c + "/" + "");
      ComponentsAppend(Render(abs, init), c + "/" + "");
      ComponentsOfName(c, "");
    }
  }

  lemma ComponentsOfFormat(abs: bool, cs: seq<string>, slash: bool)
    requires Names(cs)
    ensures Components(Format(abs, cs, slash)) == if cs == [] && !abs then ["."] else cs
    ensures IsAbsolute(Format(abs, cs, slash)) == abs
    ensures Format(abs, cs, slash) != ""
    ensures EndsInSeparator(Format(abs, cs, slash)) == (slash || (abs && cs == []))
  {
    if cs == [] {
      ComponentsOfLastName(".");
      ComponentsOfName(".", "");
      assert "." + "/" + "" == "./";
    } else if slash {
      ComponentsOfRender(abs, cs);
    } else {
      var init, c := cs[..|cs| - 1], cs[|cs| - 1];
      assert cs == init + [c];
      ComponentsOfRender(abs, init);
      ComponentsAppend(Render(abs, init), c);
      ComponentsOfLastName(c);
    }
  }

  /* ---- the reduced component list ---- */

  /** Nothing in the list would be dropped or cancelled by what follows it. */
  predicate Normal(abs: bool, cs: seq<string>) {
    && Names(cs)
    && (forall i :: 0 <= i < |cs| ==> cs[i] != ".")
    && (forall i :: 0 <= i < |cs| && cs[i] == ".." ==> Blocks(abs, cs[..i]))
  }

  lemma StepNormal(abs: bool, cs: seq<string>, c: string)
    requires Normal(abs, cs) && IsName(c)
    ensures Normal(abs, Step(abs, cs, c))
  {
    var r := Step(abs, cs, c);
    if |r| > |cs| {
      assert forall i :: 0 <= i <= |cs| ==> r[..i] == cs[..i];
      assert cs[..|cs|] == cs;
    } else {
      assert forall i :: 0 <= i <= |r| ==> r[..i] == cs[..i];
    }
  }

  lemma {:induction false} ReduceNormal(abs: bool, cs: seq<string>)
    requires Names(cs)
    ensures Normal(abs, Reduce(abs, cs))
    decreases |cs|
  {
    if cs != [] {
      ReduceNormal(abs, cs[..|cs| - 1]);
      StepNormal(abs, Reduce(abs, cs[..|cs| - 1]), cs[|cs| - 1]);
    }
  }

  lemma {:induction false} ReduceOfNormal(abs: bool, cs: seq<string>)
    requires Normal(abs, cs)
    ensures Reduce(abs, cs) == cs
    decreases |cs|
  {
    if cs != [] {
      var init, c := cs[..|cs| - 1], cs[|cs| - 1];
      assert cs == init + [c];
      assert forall i :: 0 <= i <= |init| ==> init[..i] == cs[..i];
      ReduceOfNormal(abs, init);
    }
  }

  /** A kept step leads where the component leads. */
  lemma StepWalks(abs: bool, cs: seq<string>, c: string, dir: seq<string>)
    requires Normal(abs, cs)
    requires abs ==> dir == []
    ensures Walk(dir, Step(abs, cs, c)) == Enter(Walk(dir, cs), c)
  {
    if c == "." {
    } else if c == ".." && !Blocks(abs, cs) {
      if cs != [] {
        var init, last := cs[..|cs| - 1], cs[|cs| - 1];
        assert cs == init + [last];
        assert last != "..";
      }
    } else {
      assert (cs + [c])[..|cs|] == cs;
    }
  }

  lemma {:induction false} ReduceWalks(abs: bool, cs: seq<string>, dir: seq<string>)
    requires Names(cs)
    requires abs ==> dir == []
    ensures Walk(dir, Reduce(abs, cs)) == Walk(dir, cs)
    decreases |cs|
  {
    if cs != [] {
      var init := cs[..|cs| - 1];
      ReduceWalks(abs, init, dir);
      ReduceNormal(abs, init);
      StepWalks(abs, Reduce(abs, init), cs[|cs| - 1], dir);
    }
  }

  /* ---- main results ---- */

  /** A path and its canonical form lead to the same place from every directory. */
  lemma CanonicalPreservesMeaning(p: string, dir: seq<string>)
    ensures Resolve(dir, Canonical(p)) == Resolve(dir, p)
    ensures IsAbsolute(Canonical(p)) == IsAbsolute(p)
  {
    if p != "" {
      var abs := IsAbsolute(p);
      var cs := Reduce(abs, Components(p));
      var from := if abs then [] else dir;
      ReduceNormal(abs, Components(p));
      ReduceWalks(abs, Components(p), from);
      ComponentsOfFormat(abs, cs, EndsInSeparator(p));
      if cs == [] && !abs {
        assert Walk(dir, ["."]) == Enter(Walk(dir, [".."][..0]), ".");
      }
    }
  }

  /** Canonicalising again changes nothing. */
  lemma CanonicalIdempotent(p: string)
    ensures Canonical(Canonical(p)) == Canonical(p)
  {
    if p != "" {
      var abs := IsAbsolute(p);
      var cs := Reduce(abs, Components(p));
      ReduceNormal(abs, Components(p));
      ComponentsOfFormat(abs, cs, EndsInSeparator(p));
      if cs == [] && !abs {
        assert Reduce(abs, ["."]) == Step(abs, Reduce(abs, ["."][..0]), ".");
      } else {
        ReduceOfNormal(abs, cs);
      }
    }
  }

  /** No "." survives, except as the whole of "." or "./". */
  lemma CanonicalHasNoDot(p: string)
    requires Canonical(p) != "." && Canonical(p) != "./"
    ensures "." !in Components(Canonical(p))
  {
    if p != "" {
      var abs := IsAbsolute(p);
      var cs := Reduce(abs, Components(p));
      ReduceNormal(abs, Components(p));
      ComponentsOfFormat(abs, cs, EndsInSeparator(p));
    }
  }
}
