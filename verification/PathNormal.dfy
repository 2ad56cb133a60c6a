/** Where the canonical form keeps ".." only at the front, and what it then decides. */
module PathNormal {
  import opened PathSpec

  /** Every ".." stands before all other components, and an absolute path has none. */
  predicate DotsLead(abs: bool, cs: seq<string>) {
    forall i :: 0 <= i < |cs| && cs[i] == ".." ==> !abs && forall j :: 0 <= j < i ==> cs[j] == ".."
  }

  /** Component i is a ".." that a longer name beginning with two dots keeps from cancelling. */
  predicate Shadowed(abs: bool, cs: seq<string>, i: nat)
    requires i < |cs|
  {
    var before := Reduce(abs, cs[..i]);
    cs[i] == ".." && before != [] && before[|before| - 1] != ".." && Blocks(abs, before)
  }

  predicate ShadowFree(abs: bool, cs: seq<string>) {
    forall i :: 0 <= i < |cs| ==> !Shadowed(abs, cs, i)
  }

  lemma ShadowFreePrefix(abs: bool, cs: seq<string>)
    requires cs != []
    ensures ShadowFree(abs, cs) <==>
            ShadowFree(abs, cs[..|cs| - 1]) && !Shadowed(abs, cs, |cs| - 1)
  {
    var init := cs[..|cs| - 1];
    assert forall i :: 0 <= i < |init| ==> init[..i] == cs[..i];
    assert forall i :: 0 <= i < |init| ==> Shadowed(abs, init, i) == Shadowed(abs, cs, i);
  }

  /** A step leaves the ".." at the front exactly when they were there and it is not shadowed. */
  lemma StepDotsLead(abs: bool, cs: seq<string>, c: string)
    ensures DotsLead(abs, Step(abs, cs, c)) <==>
            DotsLead(abs, cs) && !(c == ".." && cs != [] && cs[|cs| - 1] != ".." && Blocks(abs, cs))
  {
    var r := Step(abs, cs, c);
    if |r| < |cs| {
      assert cs[|cs| - 1] != "..";
      assert forall i :: 0 <= i < |r| ==> r[i] == cs[i];
    } else if |r| > |cs| {
      assert forall i :: 0 <= i < |cs| ==> r[i] == cs[i];
      assert r[|cs|] == c;
    }
  }

  /** The reduced list has its ".." at the front exactly when no ".." was shadowed on the way. */
  lemma {:induction false} DotsLeadByReduction(abs: bool, cs: seq<string>)
    ensures DotsLead(abs, Reduce(abs, cs)) <==> ShadowFree(abs, cs)
    decreases |cs|
  {
    if cs != [] {
      var init := cs[..|cs| - 1];
      DotsLeadByReduction(abs, init);
      ShadowFreePrefix(abs, cs);
      StepDotsLead(abs, Reduce(abs, init), cs[|cs| - 1]);
    }
  }

  /** A path on which the prefix test of two characters misfires. */
  lemma ShadowExample()
    ensures Components("x/..foo/..") == ["x", "..foo", ".."]
    ensures Reduce(false, ["x", "..foo", ".."]) == ["x", "..foo", ".."]
    ensures Walk([], ["x", "..foo", ".."]) == ["x"]
  {
    ThreeComponents("x", "..foo", "..");
    assert "x" + "/" + ("..foo" + "/" + "..") == "x/..foo/..";
    ShadowKept("x", "..foo");
  }

  lemma ThreeComponents(a: string, b: string, c: string)
    requires IsName(a) && IsName(b) && IsName(c)
    ensures Components(a + "/" + (b + "/" + c)) == [a, b, c]
  {
    ComponentsOfName(a, b + "/" + c);
    ComponentsOfName(b, c);
    ComponentsOfLastName(c);
  }

  lemma ShadowKept(a: string, b: string)
    requires a != "." && a != ".." && b != "." && b != ".." && TwoDots(b)
    ensures Reduce(false, [a, b, ".."]) == [a, b, ".."]
    ensures Walk([], [a, b, ".."]) == [a]
  {
    hide TwoDots;
    assert [a, b, ".."][..2] == [a, b] && [a, b][..1] == [a] && [a][..0] == [];
    assert Reduce(false, [a]) == [a];
    assert Walk([], [a]) == Enter(Walk([], [a][..0]), a) == [a];
    assert Reduce(false, [a, b]) == [a, b] && Walk([], [a, b]) == [a, b];
  }

  /* ---- shadow-free canonical forms are complete ---- */

  function Dots(n: nat): seq<string> { seq(n, _ => "..") }

  /** Leading dots of a list. */
  function LeadingDots(cs: seq<string>): (n: nat)
    ensures n <= |cs|
    ensures forall i :: 0 <= i < n ==> cs[i] == ".."
    ensures n < |cs| ==> cs[n] != ".."
  {
    if cs == [] || cs[0] != ".." then 0 else 1 + LeadingDots(cs[1..])
  }

  lemma {:induction false} WalkAppend(dir: seq<string>, a: seq<string>, b: seq<string>)
    ensures Walk(dir, a + b) == Walk(Walk(dir, a), b)
    decreases |b|
  {
    if b == [] {
      assert a + b == a;
    } else {
      assert (a + b)[..|a + b| - 1] == a + b[..|b| - 1];
      WalkAppend(dir, a, b[..|b| - 1]);
    }
  }

  lemma {:induction false} WalkDots(dir: seq<string>, ds: seq<string>)
    requires forall i :: 0 <= i < |ds| ==> ds[i] == ".."
    ensures Walk(dir, ds) == if |ds| <= |dir| then dir[..|dir| - |ds|] else []
    decreases |ds|
  {
    if ds != [] {
      WalkDots(dir, ds[..|ds| - 1]);
    }
  }

  lemma {:induction false} WalkNames(dir: seq<string>, ns: seq<string>)
    requires forall i :: 0 <= i < |ns| ==> ns[i] != "." && ns[i] != ".."
    ensures Walk(dir, ns) == dir + ns
    decreases |ns|
  {
    if ns == [] {
      assert dir + ns == dir;
    } else {
      var init, c := ns[..|ns| - 1], ns[|ns| - 1];
      WalkNames(dir, init);
      assert ns == init + [c];
      assert dir + ns == (dir + init) + [c];
    }
  }

  /** Walking a normal list pops its leading dots, then pushes the rest. */
  lemma WalkNormal(dir: seq<string>, cs: seq<string>, abs: bool)
    requires Normal(abs, cs) && DotsLead(abs, cs)
    ensures var n := LeadingDots(cs);
            Walk(dir, cs) == (if n <= |dir| then dir[..|dir| - n] else []) + cs[n..]
  {
    var n := LeadingDots(cs);
    var ds, ns := cs[..n], cs[n..];
    assert cs == ds + ns;
    forall i | 0 <= i < |ns| ensures ns[i] != "." && ns[i] != ".." {
      assert ns[i] == cs[n + i];
    }
    WalkAppend(dir, ds, ns);
    WalkDots(dir, ds);
    WalkNames(Walk(dir, ds), ns);
  }

  lemma DotsUnique(a: seq<string>, b: seq<string>)
    requires |a| == |b|
    requires (forall i :: 0 <= i < |a| ==> a[i] == "..") && (forall i :: 0 <= i < |b| ==> b[i] == "..")
    ensures a == b
  {
  }

  lemma SameLengths(dir: seq<string>, a: seq<string>, b: seq<string>, m: nat, n: nat)
    requires m <= |a| && n <= |b| && |dir| == |a| + |b| && a[m..] == b[n..]
    requires dir[..|dir| - m] + a[m..] == dir[..|dir| - n] + b[n..]
    ensures m == n
  {
    assert |dir| - m + |a[m..]| == |dir| - n + |b[n..]|;
  }

  lemma SameParts(a: seq<string>, b: seq<string>, m: nat)
    requires m <= |a| && m <= |b| && a[..m] == b[..m] && a[m..] == b[m..]
    ensures a == b
  {
    assert a == a[..m] + a[m..] && b == b[..m] + b[m..];
  }

  /** Two such lists that lead the same way from the root and from one deep directory are the same list. */
  lemma SameWalkSameList(abs: bool, a: seq<string>, b: seq<string>, dir: seq<string>)
    requires Normal(abs, a) && DotsLead(abs, a) && Normal(abs, b) && DotsLead(abs, b)
    requires Walk([], a) == Walk([], b)
    requires !abs ==> |dir| == |a| + |b| && Walk(dir, a) == Walk(dir, b)
    ensures a == b
  {
    var m, n := LeadingDots(a), LeadingDots(b);
    assert abs ==> m == 0 && n == 0;
    WalkNormal([], a, abs);
    WalkNormal([], b, abs);
    hide Walk, Normal, DotsLead, LeadingDots;
    assert a[m..] == b[n..] by { assert [] + a[m..] == a[m..] && [] + b[n..] == b[n..]; }
    if !abs {
      WalkNormal(dir, a, abs);
      WalkNormal(dir, b, abs);
      SameLengths(dir, a, b, m, n);
    }
    DotsUnique(a[..m], b[..n]);
    SameParts(a, b, m);
  }

  /** Two paths of the same kind have one canonical form exactly when they lead to the same place from everywhere. */
  lemma ShadowFreeDecides(p: string, q: string)
    requires p != "" && q != ""
    requires IsAbsolute(p) == IsAbsolute(q) && EndsInSeparator(p) == EndsInSeparator(q)
    requires ShadowFree(IsAbsolute(p), Components(p)) && ShadowFree(IsAbsolute(q), Components(q))
    ensures Canonical(p) == Canonical(q) <==> forall dir :: Resolve(dir, p) == Resolve(dir, q)
  {
    if Canonical(p) == Canonical(q) {
      forall dir ensures Resolve(dir, p) == Resolve(dir, q) {
        CanonicalPreservesMeaning(p, dir);
        CanonicalPreservesMeaning(q, dir);
      }
    } else if forall dir :: Resolve(dir, p) == Resolve(dir, q) {
      var abs := IsAbsolute(p);
      var a, b := Reduce(abs, Components(p)), Reduce(abs, Components(q));
      var dir := Dots(|a| + |b|);
      ReduceNormal(abs, Components(p));
      ReduceNormal(abs, Components(q));
      DotsLeadByReduction(abs, Components(p));
      DotsLeadByReduction(abs, Components(q));
      assert Resolve([], p) == Resolve([], q) && Resolve(dir, p) == Resolve(dir, q);
      ReduceWalks(abs, Components(p), []);
      ReduceWalks(abs, Components(q), []);
      if !abs {
        ReduceWalks(abs, Components(p), dir);
        ReduceWalks(abs, Components(q), dir);
      }
      SameWalkSameList(abs, a, b, dir);
      assert false;
    }
  }
}
