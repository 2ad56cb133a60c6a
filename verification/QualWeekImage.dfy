/** The weekly file as bytes against the weekly file as records: the two accounts of one update agree. */
module QualWeekImage {
  import opened QualWeekFile
  import H = PqHandoff
  import T = PqTasks

  /** How a header and a record are laid out; only their sizes matter. */
  datatype Layout = Layout(headerSize: nat, header: H.Week -> seq<byte>, record: H.Event -> seq<byte>)

  ghost predicate Sized(l: Layout) {
    (forall w :: |l.header(w)| == l.headerSize) && (forall e :: |l.record(e)| == H.EVENT_SIZE)
  }

  function Records(l: Layout, es: seq<H.Event>): seq<byte>
    decreases |es|
  {
    if es == [] then [] else Records(l, es[..|es| - 1]) + l.record(es[|es| - 1])
  }

  /** The bytes of a file: a torn one has none. */
  function Image(l: Layout, f: H.QwFile): seq<byte> {
    if f.Torn? then [] else l.header(f.header) + Records(l, f.tail)
  }

  function ImageIn(l: Layout, files: map<string, H.QwFile>, fn: string): Option<seq<byte>> {
    if fn in files then Some(Image(l, files[fn])) else None
  }

  lemma {:induction false} RecordsSize(l: Layout, es: seq<H.Event>)
    requires Sized(l)
    ensures |Records(l, es)| == |es| * H.EVENT_SIZE
    decreases |es|
  {
    if es != [] { RecordsSize(l, es[..|es| - 1]); }
  }

  lemma {:induction false} RecordsJoin(l: Layout, a: seq<H.Event>, b: seq<H.Event>)
    ensures Records(l, a + b) == Records(l, a) + Records(l, b)
    decreases |b|
  {
    if b == [] {
      assert a + b == a;
    } else {
      var init := b[..|b| - 1];
      assert (a + b)[..|a + b| - 1] == a + init;
      RecordsJoin(l, a, init);
    }
  }

  /** What lies behind the header is the records, and fits the buffer exactly when they do. */
  lemma TailImage(l: Layout, files: map<string, H.QwFile>, fn: string)
    requires Sized(l) && l.headerSize > 0
    ensures TailOf(ImageIn(l, files, fn), l.headerSize) == Records(l, H.TailIn(files, fn))
    ensures |Records(l, H.TailIn(files, fn))| <= QW_TAIL_MAX <==> H.Fits(H.TailIn(files, fn))
  {
    RecordsSize(l, H.TailIn(files, fn));
    if fn in files && files[fn].QwFile? {
      DropHeader(l.header(files[fn].header), Records(l, files[fn].tail));
    }
  }

  lemma DropHeader(h: seq<byte>, r: seq<byte>)
    ensures (h + r)[|h|..] == r
  {
  }

  /** Every operation succeeds, but reading stops after n records. */
  function ReadsUpTo(n: nat): IoPlan { IoPlan(true, n * H.EVENT_SIZE, true, true, true, true, true, 0) }

  function FirstOf(es: seq<H.Event>, n: nat): seq<H.Event> { if n < |es| then es[..n] else es }

  lemma DeliveredImage(l: Layout, files: map<string, H.QwFile>, fn: string, n: nat)
    requires Sized(l) && l.headerSize > 0
    ensures Delivered(ImageIn(l, files, fn), l.headerSize, ReadsUpTo(n)) == Records(l, FirstOf(H.TailIn(files, fn), n))
  {
    var t := H.TailIn(files, fn);
    TailImage(l, files, fn);
    RecordsSize(l, t);
    if n < |t| {
      assert t == t[..n] + t[n..];
      RecordsJoin(l, t[..n], t[n..]);
      RecordsSize(l, t[..n]);
    }
  }

  /** The update seen as bytes: the records read, if they fit, between the new header and the new events. */
  lemma OutcomeImage(l: Layout, files: map<string, H.QwFile>, job: H.Job, n: nat)
    requires Sized(l) && l.headerSize > 0
    ensures var r := FirstOf(H.TailIn(files, job.qwfn), n);
            Outcome(ImageIn(l, files, job.qwfn), l.headerSize, l.header(job.snap), Records(l, job.ev), ReadsUpTo(n)) ==
            if H.Fits(r) then (0, Some(Image(l, H.QwFile(job.snap, r + job.ev)))) else (-1, ImageIn(l, files, job.qwfn))
  {
    hide Image, ImageIn, H.TailIn, Delivered, Records;
    var r := FirstOf(H.TailIn(files, job.qwfn), n);
    DeliveredImage(l, files, job.qwfn, n);
    RecordsSize(l, r);
    RecordsSize(l, job.ev);
    RecordsJoin(l, r, job.ev);
    WholeImage(l, job, r);
  }

  lemma WholeImage(l: Layout, job: H.Job, r: seq<H.Event>)
    ensures Image(l, H.QwFile(job.snap, r + job.ev)) == l.header(job.snap) + Records(l, r + job.ev)
    ensures l.header(job.snap) + Records(l, r) + Records(l, job.ev) == l.header(job.snap) + (Records(l, r) + Records(l, job.ev))
    ensures job.ev == [] ==> Records(l, job.ev) == [] && Records(l, r) + [] == Records(l, r)
  {
  }

  /** The steps of the record-level update when reading stops after n records. */
  function StepsUpTo(s: H.Sys, n: nat): seq<H.Step> {
    var t := H.TailIn(s.files, s.job.qwfn);
    if !H.Fits(FirstOf(t, n)) then [H.ReadTail]
    else [if n < |t| then H.ShortRead(n) else H.ReadTail] + ([H.Truncate, H.WriteHeader] + [H.WriteTail, H.Append])
  }

  /** The steps of the file task leave the file whose image is what the byte-level update leaves. */
  lemma UpdateImage(l: Layout, s: H.Sys, n: nat)
    requires Sized(l) && l.headerSize > 0 && s.fpc.Started?
    ensures H.Runs(s, StepsUpTo(s, n))
    ensures ImageIn(l, H.After(s, StepsUpTo(s, n)).files, s.job.qwfn) ==
            Outcome(ImageIn(l, s.files, s.job.qwfn), l.headerSize, l.header(s.job.snap), Records(l, s.job.ev), ReadsUpTo(n)).1
  {
    hide Outcome, Image, Records, H.Runs, H.After, H.TailIn, H.Fits;
    var t := H.TailIn(s.files, s.job.qwfn);
    var r := FirstOf(t, n);
    OutcomeImage(l, s.files, s.job, n);
    if H.Fits(r) {
      var read := if n < |t| then H.ShortRead(n) else H.ReadTail;
      var s1 := H.Apply(s, read);
      T.Rewriting(s1);
      H.RunOne(s, read, [H.Truncate, H.WriteHeader] + [H.WriteTail, H.Append]);
      assert s1.tail == r;
    } else {
      UnfitWhole(t, n);
      H.RunOne(s, H.ReadTail, []);
      H.RunNone(H.Apply(s, H.ReadTail));
      assert [H.ReadTail] + [] == [H.ReadTail];
    }
  }

  lemma UnfitWhole(t: seq<H.Event>, n: nat)
    requires !H.Fits(FirstOf(t, n))
    ensures !H.Fits(t)
  {
  }
}
