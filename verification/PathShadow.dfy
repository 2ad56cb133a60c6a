/** Which ".." the canonical form fails to cancel, read off the path itself by matching each ".." with its name. */
module PathShadow {
  import opened PathSpec
  import opened PathNormal

  predicate Plain(c: string) { c != "." && c != ".." }

  /** Begins with two dots without being "..". */
  predicate Lookalike(c: string) { TwoDots(c) && c != ".." }

  /** Names still open after the components: each plain one opens one, each ".." closes one if there is one. */
  function Level(cs: seq<string>): nat
    decreases |cs|
  {
    if cs == [] then 0
    else
      var n, c := Level(cs[..|cs| - 1]), cs[|cs| - 1];
      if Plain(c) then n + 1 else if c == ".." && n > 0 then n - 1 else n
  }

  /** The ".." that found no open name. */
  function Ups(cs: seq<string>): nat
    decreases |cs|
  {
    if cs == [] then 0
    else Ups(cs[..|cs| - 1]) + (if cs[|cs| - 1] == ".." && Level(cs[..|cs| - 1]) == 0 then 1 else 0)
  }

  /** Component j is the name a ".." after these components would close. */
  predicate Innermost(cs: seq<string>, j: nat) {
    && j < |cs| && Plain(cs[j]) && Level(cs) == Level(cs[..j]) + 1
    && forall k :: j < k <= |cs| ==> Level(cs[..k]) > Level(cs[..j])
  }

  /** Component i is a ".." matching a lookalike, which is not the very first component left of a relative path. */
  predicate Fouled(abs: bool, cs: seq<string>, i: nat)
    requires i < |cs|
  {
    var before := cs[..i];
    && cs[i] == ".." && (abs || Level(before) > 1 || Ups(before) > 0)
    && exists j :: 0 <= j < i && Innermost(before, j) && Lookalike(cs[j])
  }

  predicate Unfouled(abs: bool, cs: seq<string>) {
    forall i :: 0 <= i < |cs| ==> !Fouled(abs, cs, i)
  }

  lemma UnfouledPrefix(abs: bool, cs: seq<string>)
    requires cs != []
    ensures Unfouled(abs, cs) <==> Unfouled(abs, cs[..|cs| - 1]) && !Fouled(abs, cs, |cs| - 1)
  {
    hide Level, Ups, Innermost, Lookalike;
    var init := cs[..|cs| - 1];
    assert forall i :: 0 <= i < |init| ==> init[..i] == cs[..i];
    assert forall i :: 0 <= i < |init| ==> Fouled(abs, init, i) == Fouled(abs, cs, i);
  }

  /* ---- the open names by position ---- */

  function Stack(cs: seq<string>): seq<nat>
    decreases |cs|
  {
    if cs == [] then []
    else
      var st, c := Stack(cs[..|cs| - 1]), cs[|cs| - 1];
      if Plain(c) then st + [|cs| - 1] else if c == ".." && st != [] then st[..|st| - 1] else st
  }

  predicate OpenAt(cs: seq<string>, p: nat, t: nat) {
    && p < |cs| && Plain(cs[p]) && Level(cs[..p]) == t
    && forall k :: p < k <= |cs| ==> Level(cs[..k]) > t
  }

  lemma OpenKept(cs: seq<string>, p: nat, t: nat)
    requires cs != [] && OpenAt(cs[..|cs| - 1], p, t) && Level(cs) > t
    ensures OpenAt(cs, p, t)
  {
    hide Level;
    var init := cs[..|cs| - 1];
    assert init[..p] == cs[..p];
    forall k | p < k <= |cs| ensures Level(cs[..k]) > t {
      if k < |cs| { assert init[..k] == cs[..k]; } else { assert cs[..k] == cs; }
    }
  }

  /** Entry t of the stack is the name that opened level t. */
  lemma {:induction false} StackOpen(cs: seq<string>)
    ensures |Stack(cs)| == Level(cs)
    ensures forall t :: 0 <= t < |Stack(cs)| ==> OpenAt(cs, Stack(cs)[t], t)
    decreases |cs|
  {
    if cs != [] {
      var init := cs[..|cs| - 1];
      StackOpen(init);
      var st, st' := Stack(init), Stack(cs);
      LevelStep(cs);
      forall t | 0 <= t < |st'| ensures OpenAt(cs, st'[t], t) {
        if t < |st| { OpenKept(cs, st[t], t); } else { OpenedNow(cs); }
      }
    }
  }

  lemma LevelStep(cs: seq<string>)
    requires cs != []
    ensures var init, c := cs[..|cs| - 1], cs[|cs| - 1];
            Level(cs) == if Plain(c) then Level(init) + 1 else if c == ".." && Level(init) > 0 then Level(init) - 1 else Level(init)
  {
  }

  lemma OpenedNow(cs: seq<string>)
    requires cs != [] && Plain(cs[|cs| - 1])
    ensures OpenAt(cs, |cs| - 1, Level(cs[..|cs| - 1]))
  {
    assert cs[..|cs|] == cs;
  }

  /** The innermost open name is the top of the stack. */
  lemma InnermostIsTop(cs: seq<string>, j: nat)
    ensures Innermost(cs, j) <==> Stack(cs) != [] && j == Stack(cs)[|Stack(cs)| - 1]
  {
    StackOpen(cs);
    hide Level, Stack;
    assert cs[..|cs|] == cs;
    if Stack(cs) != [] {
      var t := |Stack(cs)| - 1;
      var top := Stack(cs)[t];
      assert OpenAt(cs, top, t);
    }
  }

  /* ---- the reduced list ---- */

  function NamesAt(cs: seq<string>, st: seq<nat>): seq<string>
    requires forall t :: 0 <= t < |st| ==> st[t] < |cs|
  {
    seq(|st|, t requires 0 <= t < |st| => cs[st[t]])
  }

  /** What an ordinary matching of ".." with names leaves. */
  function Matched(abs: bool, cs: seq<string>): seq<string> {
    StackOpen(cs);
    Dots(if abs then 0 else Ups(cs)) + NamesAt(cs, Stack(cs))
  }

  /** The last of the matched list, when a ".." comes after it. */
  lemma MatchedLast(abs: bool, cs: seq<string>)
    ensures var m, st := Matched(abs, cs), Stack(cs);
            && |m| == (if abs then 0 else Ups(cs)) + Level(cs) && |st| == Level(cs)
            && (st == [] && m != [] ==> m[|m| - 1] == ".." && (forall k :: 0 <= k < |m| ==> m[k] == ".."))
            && (st != [] ==> st[|st| - 1] < |cs| && m[|m| - 1] == cs[st[|st| - 1]] && Plain(m[|m| - 1]))
            && (|m| == 1 && st != [] ==> m[0] == m[|m| - 1])
  {
    StackOpen(cs);
    hide Stack, Level, Ups;
  }

  lemma ShadowedIsFouled(abs: bool, cs: seq<string>)
    requires cs != [] && Reduce(abs, cs[..|cs| - 1]) == Matched(abs, cs[..|cs| - 1])
    ensures Shadowed(abs, cs, |cs| - 1) <==> Fouled(abs, cs, |cs| - 1)
  {
    var init := cs[..|cs| - 1];
    MatchedLast(abs, init);
    hide Matched, Level, Ups, Stack, Innermost, Reduce;
    var st := Stack(init);
    if st != [] {
      var top := st[|st| - 1];
      InnermostIsTop(init, top);
      assert init[top] == cs[top];
    }
    forall j: nat | j < |init| ensures Innermost(init, j) <==> st != [] && j == st[|st| - 1] { InnermostIsTop(init, j); }
  }

  lemma MatchedStep(abs: bool, cs: seq<string>)
    requires cs != [] && Reduce(abs, cs[..|cs| - 1]) == Matched(abs, cs[..|cs| - 1])
    requires !Shadowed(abs, cs, |cs| - 1)
    ensures Reduce(abs, cs) == Matched(abs, cs)
  {
    var init, c := cs[..|cs| - 1], cs[|cs| - 1];
    MatchedLast(abs, init);
    MatchedGrows(abs, cs);
    assert Reduce(abs, cs) == Step(abs, Matched(abs, init), c);
    hide Matched, Level, Ups, Stack, Reduce;
  }

  lemma MatchedGrows(abs: bool, cs: seq<string>)
    requires cs != []
    ensures var init, c := cs[..|cs| - 1], cs[|cs| - 1];
            var m := Matched(abs, init);
            Matched(abs, cs) ==
              if Plain(c) then m + [c]
              else if c == "." then m
              else if Stack(init) != [] then m[..|m| - 1]
              else if abs then m else m + [".."]
  {
    StackOpen(cs[..|cs| - 1]);
    StackOpen(cs);
    hide Level;
  }

  /* ---- main results ---- */

  lemma {:induction false} ShadowFreeExactly(abs: bool, cs: seq<string>)
    ensures ShadowFree(abs, cs) <==> Unfouled(abs, cs)
    ensures Unfouled(abs, cs) ==> Reduce(abs, cs) == Matched(abs, cs)
    decreases |cs|
  {
    hide Shadowed, Fouled, Matched, Reduce, ShadowFree, Unfouled;
    if cs == [] {
      NothingShadowed(abs);
    } else {
      ShadowFreeExactly(abs, cs[..|cs| - 1]);
      ShadowFreePrefix(abs, cs);
      UnfouledPrefix(abs, cs);
      if Unfouled(abs, cs[..|cs| - 1]) {
        ShadowedIsFouled(abs, cs);
        if !Shadowed(abs, cs, |cs| - 1) { MatchedStep(abs, cs); }
      }
    }
  }

  lemma NothingShadowed(abs: bool)
    ensures ShadowFree(abs, []) && Unfouled(abs, []) && Reduce(abs, []) == Matched(abs, [])
  {
  }

  /** The canonical list has its ".." at the front, and none if absolute, exactly when no ".." of the path matches a
      name that merely begins with two dots, other than the first one left of a relative path. */
  lemma DotsLeadExactly(abs: bool, cs: seq<string>)
    ensures DotsLead(abs, Reduce(abs, cs)) <==> Unfouled(abs, cs)
  {
    DotsLeadByReduction(abs, cs);
    ShadowFreeExactly(abs, cs);
  }

  /** Certainly so when nothing in the path looks like ".." without being it. */
  lemma NoLookalikes(abs: bool, cs: seq<string>)
    requires forall c :: c in cs ==> !Lookalike(c)
    ensures Unfouled(abs, cs)
  {
    hide Level, Ups, Innermost, Lookalike;
    forall i | 0 <= i < |cs| ensures !Fouled(abs, cs, i) {
      assert forall j :: 0 <= j < i ==> cs[j] in cs;
    }
  }

  /** Then the canonical list is what matching each ".." with its name leaves. */
  lemma CanonicalIsMatched(abs: bool, cs: seq<string>)
    requires Unfouled(abs, cs)
    ensures Reduce(abs, cs) == Matched(abs, cs)
  {
    ShadowFreeExactly(abs, cs);
  }

  /** Two such paths of the same kind have one canonical form exactly when they lead to the same place from everywhere. */
  lemma CanonicalDecides(p: string, q: string)
    requires p != "" && q != ""
    requires IsAbsolute(p) == IsAbsolute(q) && EndsInSeparator(p) == EndsInSeparator(q)
    requires Unfouled(IsAbsolute(p), Components(p)) && Unfouled(IsAbsolute(q), Components(q))
    ensures Canonical(p) == Canonical(q) <==> forall dir :: Resolve(dir, p) == Resolve(dir, q)
  {
    hide Unfouled, ShadowFree, Canonical, Resolve, Components;
    ShadowFreeExactly(IsAbsolute(p), Components(p));
    ShadowFreeExactly(IsAbsolute(q), Components(q));
    ShadowFreeDecides(p, q);
  }
}
