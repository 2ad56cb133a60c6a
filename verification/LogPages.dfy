/** storeAlarmLog's ring push, fetchAlarm and fetchIticCommon of src/alarm.c on their buffers. */
module LogPages {
  import opened Rings
  import opened LogRing

  class LogFifo<T(0)> {
    const log: array<T>
    var fr: nat
    var re: nat
    var count: nat

    constructor (n: nat)
      requires n > 0
      ensures Valid() && log.Length == n && count == 0 && fresh(log)
    {
      log := new T[n];
      fr, re, count := 0, 0, 0;
    }

    ghost function State(): Ring<T>
      reads this, log
    {
      Ring(log[..], fr, re, count)
    }

    ghost predicate Valid()
      reads this, log
    {
      WellFormed(State())
    }

    /** Steps one slot back from where k records were passed and reads it. */
    method StepBack(ix: int, ghost k: nat) returns (ix': int, x: T)
      requires Valid() && k < count && ix == Back(log.Length, fr, k)
      ensures ix' == Back(log.Length, fr, k + 1)
      ensures x == NewestFirst(Contents(State()))[k]
    {
      NewestSlot(State(), k);
      ix' := ix - 1;
      if ix' < 0 { ix' := log.Length - 1; }
      x := log[ix'];
    }

    method Store(x: T)
      requires Valid()
      modifies this, log
      ensures Valid() && State() == Push(old(State()), x)
      ensures Contents(State()) == Latest(old(Contents(State())) + [x], log.Length)
    {
      PushAppends(State(), x);
      ghost var was := log[..];
      log[fr] := x;
      assert log[..] == was[fr := x];
      if count < log.Length {
        count := count + 1;
        fr := fr + 1;
        if fr >= log.Length { fr := 0; }
      } else {
        re := re + 1;
        if re >= log.Length { re := 0; }
        fr := fr + 1;
        if fr >= log.Length { fr := 0; }
      }
    }
  }

  /** Slot index after stepping k records back from the write position, before the next decrement. */
  function Back(n: nat, fr: nat, k: nat): int { if fr >= k then fr - k else fr + n - k }

  lemma NewestSlot<T>(r: Ring<T>, k: nat)
    requires WellFormed(r) && k < r.count
    ensures NewestFirst(Contents(r))[k] == r.slots[if r.fr >= k + 1 then r.fr - k - 1 else r.fr + |r.slots| - k - 1]
  {
  }

  lemma FilterSnoc<T>(c: seq<T>, n: nat, keep: T -> bool)
    requires n < |c|
    ensures Filter(c[..n + 1], keep) == Filter(c[..n], keep) + (if keep(c[n]) then [c[n]] else [])
  {
    assert c[..n + 1][..n] == c[..n];
  }

  lemma {:induction false} FilterPrefix<T>(c: seq<T>, n: nat, keep: T -> bool)
    requires n <= |c|
    ensures |Filter(c[..n], keep)| <= |Filter(c, keep)|
    ensures Filter(c, keep)[..|Filter(c[..n], keep)|] == Filter(c[..n], keep)
    decreases |c| - n
  {
    if n < |c| {
      FilterSnoc(c, n, keep);
      FilterPrefix(c, n + 1, keep);
    } else {
      assert c[..n] == c;
    }
  }

  lemma FilterNewest<T>(c: seq<T>, keep: T -> bool)
    ensures |Filter(NewestFirst(c), keep)| == |Filter(c, keep)|
    decreases |c|
  {
    if c != [] {
      var init, x := c[..|c| - 1], c[|c| - 1];
      var s := NewestFirst(c);
      assert s == [x] + NewestFirst(init);
      FilterCons(x, NewestFirst(init), keep);
      FilterNewest(init, keep);
    }
  }

  lemma {:induction false} FilterCons<T>(x: T, s: seq<T>, keep: T -> bool)
    ensures Filter([x] + s, keep) == (if keep(x) then [x] else []) + Filter(s, keep)
    decreases |s|
  {
    if s == [] {
      assert [x] + s == [x] && [x][..0] == [];
    } else {
      var init := s[..|s| - 1];
      assert ([x] + s)[..|s|] == [x] + init;
      FilterCons(x, init, keep);
    }
  }

  /** The page is the beginning of the list, followed by zero records. */
  predicate FirstPage<T(==)>(page: seq<T>, list: seq<T>, zero: T) {
    forall k :: 0 <= k < |page| ==> page[k] == if k < |list| then list[k] else zero
  }

  /** How a command moves the cursor; paging up from less than a page down leads to first. */
  predicate Moved(was: nat, now: nat, total: nat, size: nat, cmd: Command, first: nat)
    requires size > 0
  {
    && (cmd == Update || cmd == Other ==> now == was)
    && (cmd == PageDown ==> now == if was + size < total then was + size else was)
    && (cmd == PageUp ==> now == if was >= size then was - size else first)
    && (cmd == Top ==> now == 0)
    && (cmd == Bottom ==> now % size == 0 && (if total == 0 then now == 0 else now < total <= now + size))
  }

  lemma CursorMoves(was: nat, total: nat, size: nat, cmd: Command)
    requires size > 0
    ensures Moved(was, AlarmCursor(was, total, size, cmd), total, size, cmd, was)
    ensures Moved(was, EventCursor(was, total, size, cmd), total, size, cmd, 0)
  {
    if cmd == Bottom && total > 0 { LastPage(total, size); }
  }

  lemma TopShowsFirst<T>(list: seq<T>, size: nat, zero: T)
    ensures FirstPage(Page(list, 0, size, zero), list, zero)
  {
  }

  class PageView<T(0)> {
    const page: array<T>
    var fr: nat
    var re: nat
    var count: nat

    constructor (size: nat)
      requires size > 0
      ensures page.Length == size && re == 0 && fresh(page)
    {
      page := new T[size];
      fr, re, count := 0, 0, 0;
    }

    /** Shows a page of the log, newest record first. */
    method FetchAlarm(f: LogFifo<T>, cmd: Command, zero: T)
      requires f.Valid() && page.Length > 0 && page != f.log
      modifies this, page
      ensures f.Valid() && f.State() == old(f.State())
      ensures re == AlarmCursor(old(re), f.count, page.Length, cmd) && count == f.count
      ensures page[..] == Page(NewestFirst(Contents(f.State())), re, page.Length, zero)
      ensures Moved(old(re), re, count, page.Length, cmd, old(re))
      ensures cmd == Top ==> FirstPage(page[..], NewestFirst(Contents(f.State())), zero)
    {
      hide AlarmCursor, FirstPage, Page, NewestFirst, Contents;
      CursorMoves(re, f.count, page.Length, cmd);
      count := f.count;
      MoveAlarm(f.count, cmd);
      FillNewest(f, zero);
      TopShowsFirst(NewestFirst(Contents(f.State())), page.Length, zero);
    }

    method FillNewest(f: LogFifo<T>, zero: T)
      requires f.Valid() && page.Length > 0 && page != f.log
      modifies `fr, page
      ensures f.Valid() && f.State() == old(f.State())
      ensures page[..] == Page(NewestFirst(Contents(f.State())), re, page.Length, zero)
    {
      hide NewestFirst, Contents;
      ghost var list := NewestFirst(Contents(f.State()));
      var n := f.log.Length;
      var ix: int := if f.fr >= re then f.fr - re else f.fr - re + n;
      fr := re;
      for i := 0 to page.Length
        invariant f.Valid() && f.State() == old(f.State())
        invariant re <= fr <= re + i && (fr < re + i ==> fr >= f.count)
        invariant fr < f.count ==> fr == re + i && (ix == f.fr - fr || ix == f.fr - fr + n) && 0 <= ix <= n
        invariant forall k :: 0 <= k < i ==> page[k] == if re + k < |list| then list[re + k] else zero
      {
        if fr < f.count {
          NewestSlot(f.State(), fr);
          ix := ix - 1;
          if ix < 0 { ix := n - 1; }
          page[i] := f.log[ix];
          fr := fr + 1;
        } else {
          page[i] := zero;
        }
      }
    }

    method MoveAlarm(total: nat, cmd: Command)
      requires page.Length > 0
      modifies `re
      ensures re == AlarmCursor(old(re), total, page.Length, cmd)
    {
      if cmd == PageDown {
        if re + page.Length < total { re := re + page.Length; }
      } else if cmd == PageUp {
        if re >= page.Length { re := re - page.Length; }
      } else if cmd == Top {
        re := 0;
      } else if cmd == Bottom {
        if total > 0 { re := (total - 1) / page.Length * page.Length; } else { re := 0; }
      }
    }

    method MoveItic(total: nat, cmd: Command)
      requires page.Length > 0
      modifies `re
      ensures re == EventCursor(old(re), total, page.Length, cmd)
    {
      if cmd == PageUp && re < page.Length { re := 0; } else { MoveAlarm(total, cmd); }
    }

    /** How many records of the log match, oldest first. */
    method CountMatches(f: LogFifo<T>, keep: T -> bool) returns (matchTotal: nat)
      requires f.Valid()
      ensures matchTotal == |Filter(Contents(f.State()), keep)|
    {
      ghost var c := Contents(f.State());
      matchTotal := 0;
      for i := 0 to f.count
        invariant matchTotal == |Filter(c[..i], keep)|
      {
        var slot := if f.count < f.log.Length then i else if f.re + i < f.log.Length then f.re + i else f.re + i - f.log.Length;
        FilterSnoc(c, i, keep);
        if keep(f.log[slot]) { matchTotal := matchTotal + 1; }
      }
      assert c[..f.count] == c;
    }

    /** Shows a page of the matching records, newest first. */
    method FetchItic(f: LogFifo<T>, keep: T -> bool, cmd: Command, zero: T)
      requires f.Valid() && page.Length > 0 && page != f.log
      modifies this, page
      ensures f.Valid() && f.State() == old(f.State())
      ensures var list := Filter(NewestFirst(Contents(f.State())), keep);
              && count == |list| && re == EventCursor(old(re), |list|, page.Length, cmd)
              && page[..] == Page(list, re, page.Length, zero)
      ensures Moved(old(re), re, count, page.Length, cmd, 0)
      ensures cmd == Top ==> FirstPage(page[..], Filter(NewestFirst(Contents(f.State())), keep), zero)
    {
      var matchTotal := CountMatches(f, keep);
      FilterNewest(Contents(f.State()), keep);
      hide EventCursor, FirstPage, Page, NewestFirst, Contents, Filter;
      CursorMoves(re, matchTotal, page.Length, cmd);
      count := matchTotal;
      MoveItic(matchTotal, cmd);
      FillMatches(f, keep, zero);
      TopShowsFirst(Filter(NewestFirst(Contents(f.State())), keep), page.Length, zero);
    }

    method ClearPage(zero: T)
      modifies page
      ensures forall k :: 0 <= k < page.Length ==> page[k] == zero
    {
      for i := 0 to page.Length
        invariant forall k :: 0 <= k < i ==> page[k] == zero
      {
        page[i] := zero;
      }
    }

    /** One more match: it goes on the page once the matches before the cursor have passed. */
    method ShowMatch(x: T, seen: nat, dst: nat, ghost got: seq<T>, zero: T) returns (dst': nat)
      requires PageSoFar(page[..], got, re, dst, zero) && seen == |got| && dst < page.Length
      modifies page
      ensures PageSoFar(page[..], got + [x], re, dst', zero) && dst' <= page.Length
    {
      dst' := dst;
      if seen >= re {
        page[dst] := x;
        dst' := dst + 1;
      }
    }

    method FillMatches(f: LogFifo<T>, keep: T -> bool, zero: T)
      requires f.Valid() && page.Length > 0 && page != f.log
      modifies `fr, page
      ensures f.Valid() && f.State() == old(f.State())
      ensures page[..] == Page(Filter(NewestFirst(Contents(f.State())), keep), re, page.Length, zero)
    {
      ghost var list := Filter(NewestFirst(Contents(f.State())), keep);
      ClearPage(zero);
      var dst, got := ScanMatches(f, keep, zero);
      hide Filter, NewestFirst, Contents, PageSoFar, Page;
      PageComplete(page[..], list, got, re, dst, zero);
      fr := re + dst;
    }

    /** Reads the log backwards until the page is full or the log is at an end. */
    method ScanMatches(f: LogFifo<T>, keep: T -> bool, zero: T) returns (dst: nat, ghost got: seq<T>)
      requires f.Valid() && page.Length > 0 && page != f.log
      requires forall k :: 0 <= k < page.Length ==> page[k] == zero
      modifies page
      ensures f.Valid() && f.State() == old(f.State())
      ensures PageSoFar(page[..], got, re, dst, zero)
      ensures var list := Filter(NewestFirst(Contents(f.State())), keep);
              |got| <= |list| && list[..|got|] == got && (dst == page.Length || got == list)
    {
      ghost var s := NewestFirst(Contents(f.State()));
      hide Filter, NewestFirst, Contents, PageSoFar, Back;
      var ix: int, seen: nat, n: nat := f.fr, 0, 0;
      dst, got := 0, [];
      BackNone(f.log.Length, f.fr);
      PageSoFarNone(page[..], re, zero);
      FilterNone(s[..0], keep);
      while n < f.count && dst < page.Length
        invariant f.State() == old(f.State()) && n <= f.count
        invariant ix == Back(f.log.Length, f.fr, n)
        invariant got == Filter(s[..n], keep) && seen == |got| && dst <= page.Length
        invariant PageSoFar(page[..], got, re, dst, zero)
      {
        var x: T;
        ix, x := f.StepBack(ix, n);
        FilterSnoc(s, n, keep);
        if keep(x) {
          dst := ShowMatch(x, seen, dst, got, zero);
          got := got + [x];
          seen := seen + 1;
        }
        n := n + 1;
      }
      FilterPrefix(s, n, keep);
      if n == f.count { assert s[..n] == s; }
    }
  }

  lemma BackNone(n: nat, fr: nat)
    ensures Back(n, fr, 0) == fr
  {
  }

  lemma PageSoFarNone<T>(page: seq<T>, at: nat, zero: T)
    requires forall k :: 0 <= k < |page| ==> page[k] == zero
    ensures PageSoFar(page, [], at, 0, zero)
  {
  }

  /** The first dst entries of the page are filled from got, the others are zero. */
  predicate PageSoFar<T(==)>(page: seq<T>, got: seq<T>, at: nat, dst: nat, zero: T) {
    && dst <= |page| && dst == (if |got| <= at then 0 else |got| - at)
    && forall k :: 0 <= k < |page| ==> page[k] == if k < dst then got[at + k] else zero
  }

  lemma PageComplete<T>(page: seq<T>, list: seq<T>, got: seq<T>, at: nat, dst: nat, zero: T)
    requires PageSoFar(page, got, at, dst, zero)
    requires |got| <= |list| && list[..|got|] == got
    requires dst == |page| || got == list
    ensures page == Page(list, at, |page|, zero)
  {
    forall k | 0 <= k < |page| ensures page[k] == Page(list, at, |page|, zero)[k] {
      if k < dst { assert got[at + k] == list[at + k]; }
    }
  }

  lemma FilterNone<T>(c: seq<T>, keep: T -> bool)
    ensures c == [] ==> Filter(c, keep) == []
  {
  }
}
