/** The weekly report file of src/Quality.c: a header rewritten in full, then the event records kept behind it. */
module QualWeekFile {

  type byte = x: int | 0 <= x < 256

  const QW_TAIL_MAX := 4096
  const READ_CHUNK := 256

  datatype Option<+T> = None | Some(value: T)

  /** What lies behind a header of headerSize bytes. */
  function TailOf(file: Option<seq<byte>>, headerSize: nat): seq<byte> {
    if file.Some? && headerSize <= |file.value| then file.value[headerSize..] else []
  }

  /** What the operations of one update do: whether the file opens for reading and at which byte behind the header
      reading stops short, which writes succeed, and how many bytes a failing one leaves. */
  datatype IoPlan = IoPlan(openRead: bool, readLen: nat,
                           openWrite: bool, header: bool, tail: bool, openAppend: bool, events: bool, partial: nat)

  function Cut(bytes: seq<byte>, n: nat): seq<byte> { if n < |bytes| then bytes[..n] else bytes }

  /** What the reading delivers: nothing from a file that does not open, and all of the tail only if no read is short. */
  function Delivered(file: Option<seq<byte>>, headerSize: nat, io: IoPlan): seq<byte> {
    if io.openRead then Cut(TailOf(file, headerSize), io.readLen) else []
  }

  /** The reads deliver the whole tail. */
  predicate ReadsAll(file: Option<seq<byte>>, headerSize: nat, io: IoPlan) {
    var t := TailOf(file, headerSize);
    t == [] || (io.openRead && |t| <= io.readLen)
  }

  /** Result and file after one update. */
  function Outcome(file: Option<seq<byte>>, headerSize: nat, snap: seq<byte>, events: seq<byte>, io: IoPlan)
    : (int, Option<seq<byte>>)
  {
    var d := Delivered(file, headerSize, io);
    if |d| > QW_TAIL_MAX || !io.openWrite then (-1, file)
    else if !io.header then (-1, Some(Cut(snap, io.partial)))
    else if d != [] && !io.tail then (-1, Some(snap + Cut(d, io.partial)))
    else if events == [] then (0, Some(snap + d))
    else if !io.openAppend then (-1, Some(snap + d))
    else if !io.events then (-1, Some(snap + d + Cut(events, io.partial)))
    else (0, Some(snap + d + events))
  }

  class Store {
    var files: map<string, seq<byte>>
    const tailBuf: array<byte>
    const headerSize: nat

    constructor (headerSize: nat)
      ensures tailBuf.Length == QW_TAIL_MAX && fresh(tailBuf) && this.headerSize == headerSize && files == map[]
    {
      tailBuf := new byte[QW_TAIL_MAX];
      this.headerSize := headerSize;
      files := map[];
    }

    function Open(path: string): Option<seq<byte>>
      reads this
    {
      if path in files then Some(files[path]) else None
    }

    /** Reads what lies behind the header into the buffer, 256 bytes at a time; -1 if the buffer is too small. */
    method ReadTail(path: string, io: IoPlan) returns (res: int, size: nat)
      requires tailBuf.Length == QW_TAIL_MAX
      modifies tailBuf
      ensures var d := Delivered(Open(path), headerSize, io);
              if |d| <= QW_TAIL_MAX then res == 0 && size == |d| && tailBuf[..size] == d else res == -1 && size == 0
    {
      size := 0;
      if path !in files || !io.openRead { return 0, 0; }
      var file := files[path];
      if |file| < headerSize { return 0, 0; }
      ghost var d := Cut(file[headerSize..], io.readLen);
      var pos, total, more := headerSize, 0, true;
      while total < QW_TAIL_MAX && more
        invariant total <= |d| && total <= QW_TAIL_MAX && pos == headerSize + total
        invariant forall q :: 0 <= q < total ==> tailBuf[q] == d[q]
        invariant !more ==> total == |d|
        decreases more, QW_TAIL_MAX - total
      {
        var n := QW_TAIL_MAX - total;
        if n > READ_CHUNK { n := READ_CHUNK; }
        if n > |file| - pos { n := |file| - pos; }
        if n > io.readLen - total { n := io.readLen - total; }
        Fetch(file, pos, n, total);
        total, pos := total + n, pos + n;
        if n == 0 { more := false; }
      }
      if total == QW_TAIL_MAX && pos < |file| && total < io.readLen { return -1, 0; }
      assert tailBuf[..total] == d;
      return 0, total;
    }

    /** fread of n bytes at pos into the buffer at position at. */
    method Fetch(file: seq<byte>, pos: nat, n: nat, at: nat)
      requires pos + n <= |file| && at + n <= tailBuf.Length
      modifies tailBuf
      ensures forall q :: 0 <= q < tailBuf.Length ==>
                tailBuf[q] == if at <= q < at + n then file[pos + q - at] else old(tailBuf[q])
    {
      for m := 0 to n
        invariant forall q :: 0 <= q < tailBuf.Length ==>
                    tailBuf[q] == if at <= q < at + m then file[pos + q - at] else old(tailBuf[q])
      {
        tailBuf[at + m] := file[pos + m];
      }
    }

    /** The rewrite: new header, old tail, new events. */
    method UpdateQualWeekData(path: string, snap: seq<byte>, events: seq<byte>, io: IoPlan) returns (res: int)
      requires tailBuf.Length == QW_TAIL_MAX && |snap| == headerSize
      modifies this, tailBuf
      ensures (res, Open(path)) == Outcome(old(Open(path)), headerSize, snap, events, io)
      ensures forall p :: p != path ==> Open(p) == old(Open(p))
    {
      var ok, size := ReadTail(path, io);
      if ok != 0 { return -1; }
      ghost var d := tailBuf[..size];
      res := Rewrite(path, snap, size, io);
      assert snap + d + [] == snap + d;
      if res == 0 && |events| > 0 { res := AppendEvents(path, events, io); }
    }

    /** The header and what was behind it, over the old file. */
    method Rewrite(path: string, snap: seq<byte>, size: nat, io: IoPlan) returns (res: int)
      requires size <= tailBuf.Length
      modifies `files
      ensures res == if io.openWrite && io.header && (size == 0 || io.tail) then 0 else -1
      ensures Open(path) == if !io.openWrite then old(Open(path))
                            else if !io.header then Some(Cut(snap, io.partial))
                            else if size > 0 && !io.tail then Some(snap + Cut(tailBuf[..size], io.partial))
                            else Some(snap + tailBuf[..size])
      ensures forall p :: p != path ==> Open(p) == old(Open(p))
    {
      if !io.openWrite { return -1; }
      files := files[path := []];
      if !io.header {
        files := files[path := Cut(snap, io.partial)];
        return -1;
      }
      files := files[path := snap];
      assert snap + [] == snap;
      if size > 0 {
        if !io.tail {
          files := files[path := snap + Cut(tailBuf[..size], io.partial)];
          return -1;
        }
        files := files[path := snap + tailBuf[..size]];
      }
      return 0;
    }

    /** The events, through a file opened to append. */
    method AppendEvents(path: string, events: seq<byte>, io: IoPlan) returns (res: int)
      requires path in files
      modifies `files
      ensures res == 0 <==> io.openAppend && io.events
      ensures forall p :: p != path ==> Open(p) == old(Open(p))
      ensures res == 0 || res == -1
      ensures files == old(files)[path := old(files)[path] + (if !io.openAppend then [] else if io.events then events else Cut(events, io.partial))]
    {
      if !io.openAppend {
        assert files[path] + [] == files[path];
        return -1;
      }
      if !io.events {
        files := files[path := files[path] + Cut(events, io.partial)];
        return -1;
      }
      files := files[path := files[path] + events];
      return 0;
    }

    method CreateQualWeekData(path: string, week: seq<byte>)
      modifies this
      ensures files == old(files)[path := week]
    {
      files := files[path := week];
    }
  }

  /* ---- what becomes of the old records ---- */

  /** An update that reports success has kept what was read, and that only. */
  lemma SuccessMeans(file: Option<seq<byte>>, headerSize: nat, snap: seq<byte>, events: seq<byte>, io: IoPlan)
    requires Outcome(file, headerSize, snap, events, io).0 == 0 && |snap| == headerSize
    ensures var (res, after) := Outcome(file, headerSize, snap, events, io);
            res == 0 && after == Some(snap + Delivered(file, headerSize, io) + events)
            && TailOf(after, headerSize) == Delivered(file, headerSize, io) + events
  {
    var d := Delivered(file, headerSize, io);
    assert snap + d + [] == snap + d && d + [] == d;
    assert (snap + d + events)[headerSize..] == d + events;
  }

  /** So it has kept the old records exactly when every read was complete; success alone does not tell. */
  lemma TailSurvivesExactly(file: Option<seq<byte>>, headerSize: nat, snap: seq<byte>, events: seq<byte>, io: IoPlan)
    requires Outcome(file, headerSize, snap, events, io).0 == 0 && |snap| == headerSize
    ensures TailOf(Outcome(file, headerSize, snap, events, io).1, headerSize) == TailOf(file, headerSize) + events
            <==> ReadsAll(file, headerSize, io)
  {
    SuccessMeans(file, headerSize, snap, events, io);
    hide Outcome;
    var t, d := TailOf(file, headerSize), Delivered(file, headerSize, io);
    assert |d| < |t| || d == t;
    assert |d + events| == |d| + |events|;
  }

  /** A file that does not open for reading loses its records while the update reports success. */
  lemma SilentLoss(headerSize: nat, head: seq<byte>, snap: seq<byte>, tail: seq<byte>, events: seq<byte>)
    requires |head| == |snap| == headerSize && tail != []
    ensures var io := IoPlan(false, 0, true, true, true, true, true, 0);
            var (res, after) := Outcome(Some(head + tail), headerSize, snap, events, io);
            res == 0 && TailOf(Some(head + tail), headerSize) == tail && TailOf(after, headerSize) == events
  {
    assert (head + tail)[headerSize..] == tail;
    var io := IoPlan(false, 0, true, true, true, true, true, 0);
    SuccessMeans(Some(head + tail), headerSize, snap, events, io);
    assert [] + events == events;
  }

  /** One update of a series. */
  datatype Update = Update(snap: seq<byte>, events: seq<byte>, io: IoPlan)

  function FileAfter(file: Option<seq<byte>>, headerSize: nat, us: seq<Update>): Option<seq<byte>>
    decreases |us|
  {
    if us == [] then file
    else
      var before, u := FileAfter(file, headerSize, us[..|us| - 1]), us[|us| - 1];
      Outcome(before, headerSize, u.snap, u.events, u.io).1
  }

  /** Every update of the series reads all there is and succeeds. */
  predicate AllSaved(file: Option<seq<byte>>, headerSize: nat, us: seq<Update>)
    decreases |us|
  {
    us == [] ||
    var before, u := FileAfter(file, headerSize, us[..|us| - 1]), us[|us| - 1];
    && AllSaved(file, headerSize, us[..|us| - 1]) && |u.snap| == headerSize
    && ReadsAll(before, headerSize, u.io) && Outcome(before, headerSize, u.snap, u.events, u.io).0 == 0
  }

  function EventsOf(us: seq<Update>): seq<byte>
    decreases |us|
  {
    if us == [] then [] else EventsOf(us[..|us| - 1]) + us[|us| - 1].events
  }

  /** Such a series keeps every record it was given, in order, behind those the file had, and every update of it
      found the tail before it within the buffer. */
  lemma {:induction false} TailGrows(file: Option<seq<byte>>, headerSize: nat, us: seq<Update>)
    requires AllSaved(file, headerSize, us)
    ensures TailOf(FileAfter(file, headerSize, us), headerSize) == TailOf(file, headerSize) + EventsOf(us)
    ensures us != [] ==> |TailOf(file, headerSize)| + |EventsOf(us[..|us| - 1])| <= QW_TAIL_MAX
    decreases |us|
  {
    if us == [] {
      assert TailOf(file, headerSize) + [] == TailOf(file, headerSize);
    } else {
      var init, u := us[..|us| - 1], us[|us| - 1];
      TailGrows(file, headerSize, init);
      var before := FileAfter(file, headerSize, init);
      TailSurvivesExactly(before, headerSize, u.snap, u.events, u.io);
      assert TailOf(file, headerSize) + EventsOf(init) + u.events == TailOf(file, headerSize) + (EventsOf(init) + u.events);
    }
  }
}
