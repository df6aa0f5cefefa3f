/**
 * The line reader of src/streamline.c.
 *
 * A fixed buffer is filled by a child stream that may hand out its bytes in any pieces, say "try
 * again" in between, and end or fail.  The functions below are what the C functions compute from the
 * buffer, the flags and the child; `Next` and `Lines` are what the caller should see, in terms of the
 * bytes alone.
 */
module StreamLine {
  import opened Sequences

  const NUL := '\0'
  const LF := '\n'
  const CR := '\r'

  /** Which of ZRL_EOL_NL, ZRL_EOL_CRLF and ZRL_EOL_NUL is set, if any. */
  datatype Eol = Plain | Nl | CrLf | Nul

  datatype Config = Config(
    bufsize: nat,
    eol: Eol,
    eolFatal: bool,
    nulNonfatal: bool,
    truncate: bool,
    split: bool,
    singleRead: bool,
    returnEol: bool)

  datatype Reader = Reader(buf: string, pos: nat, end: nat, oldpos: nat, ignoring: bool, eof: bool, error: bool)

  /** What the child will do at its next reads. */
  datatype Event = Chunk(bytes: string) | Wait | Eof | Fail

  datatype Result =
    | Got(line: string)    // G_IO_STATUS_NORMAL
    | Part(line: string)   // G_IO_STATUS_AGAIN with some of the line
    | Again
    | AtEof
    | Failed

  function Terminator(cfg: Config): char {
    if cfg.eol.Nul? then NUL else LF
  }

  /** memchr: the first place of `c`, or the length. */
  function Find(s: string, c: char): (k: nat)
    ensures k <= |s|
  {
    if s == [] || s[0] == c then 0 else 1 + Find(s[1..], c)
  }

  /** z_stream_line_have_line says no. */
  predicate NoMark(cfg: Config, s: string) {
    Find(s, Terminator(cfg)) == |s|
  }

  lemma {:induction false} FindFirst(s: string, c: char)
    ensures Find(s, c) < |s| ==> s[Find(s, c)] == c
    ensures forall j :: 0 <= j < Find(s, c) ==> s[j] != c
  {
    if s != [] && s[0] != c {
      FindFirst(s[1..], c);
      assert forall j :: 1 <= j < |s| ==> s[j] == s[1..][j - 1];
    }
  }

  predicate WellFormed(cfg: Config, r: Reader) {
    0 < cfg.bufsize == |r.buf| && r.oldpos <= r.pos <= r.end <= cfg.bufsize
  }

  // ----- z_stream_line_get_from_buf -----

  datatype Scanned = Line(start: nat, len: int) | NoLine | Bad

  function Avail(r: Reader): string
    requires r.pos <= r.end <= |r.buf|
  {
    r.buf[r.pos..r.end]
  }

  function MovedToFront(r: Reader): Reader
    requires r.pos <= r.end <= |r.buf|
  {
    r.(buf := Avail(r) + r.buf[r.end - r.pos..], pos := 0, end := r.end - r.pos, oldpos := 0)
  }

  /** How many of the last bytes of a line ending at `e` are its end mark; -1 if the mark is not acceptable. */
  function MarkLength(cfg: Config, buf: string, e: nat): int
    requires e < |buf|
  {
    match cfg.eol
    case Plain => 0
    case Nl => 1
    case Nul => 1
    case CrLf => if e >= 1 && buf[e - 1] == CR then 2 else if cfg.eolFatal then -1 else 1
  }

  /** A NUL in a line, where that is an error. */
  predicate BadNul(cfg: Config, s: string) {
    !cfg.eol.Nul? && !cfg.nulNonfatal && NUL in s
  }

  function Scan(cfg: Config, r: Reader): (out: (Reader, Scanned))
    requires WellFormed(cfg, r)
    ensures WellFormed(cfg, out.0)
  {
    var avail := Avail(r);
    var k := Find(avail, Terminator(cfg));
    if r.eof || k < |avail| then
      var length := if r.eof then |avail| else k + 1;
      var moved := r.(oldpos := r.pos, pos := r.pos + length);
      var raw := avail[..length];
      if BadNul(cfg, raw) then (moved, Bad)
      else if r.eof then (moved, Line(r.pos, length))
      else
        var mark := MarkLength(cfg, r.buf, r.pos + k);
        if mark < 0 then (moved, Bad)
        else (moved, Line(r.pos, if cfg.returnEol then length else length - mark))
    else if r.pos > 0 then (MovedToFront(r), NoLine)
    else (r, NoLine)
  }

  function BytesAt(r: Reader, start: nat, len: int): string {
    if 0 <= len && start + len <= |r.buf| then r.buf[start..start + len] else []
  }

  // ----- z_stream_line_get_internal -----

  function Reset(r: Reader): Reader {
    r.(pos := 0, end := 0, oldpos := 0)
  }

  /** How much the child may still do. */
  function Size(child: seq<Event>): nat {
    if child == [] then 0 else 1 + (if child[0].Chunk? then |child[0].bytes| else 0) + Size(child[1..])
  }

  /** Reading up to `n` bytes of a chunk; the child keeps the rest. */
  function Rest(child: seq<Event>, n: nat): (rest: seq<Event>)
    requires child != [] && child[0].Chunk? && 0 < n
    ensures Size(rest) < Size(child)
  {
    var c := child[0].bytes;
    if |c| <= n then child[1..]
    else
      assert ([Chunk(c[n..])] + child[1..])[1..] == child[1..];
      [Chunk(c[n..])] + child[1..]
  }

  /** What such a read yields. */
  function Taken(child: seq<Event>, n: nat): (d: string)
    requires child != [] && child[0].Chunk?
    ensures |d| <= n
  {
    if |child[0].bytes| <= n then child[0].bytes else child[0].bytes[..n]
  }

  function Filled(r: Reader, d: string): Reader
    requires r.pos <= r.end && r.end + |d| <= |r.buf|
  {
    r.(buf := r.buf[..r.end] + d + r.buf[r.end + |d|..], end := r.end + |d|)
  }

  /** One pass after a read, up to two when a line's tail had to be dropped first. */
  datatype Pass = Return(result: Result) | Continue

  function AfterRead(cfg: Config, r: Reader): (out: (Reader, Pass))
    requires WellFormed(cfg, r)
    ensures WellFormed(cfg, out.0)
  {
    var (r1, s1) := Scan(cfg, r);
    var (r2, s2) := if s1.Line? && r1.ignoring then Scan(cfg, r1.(ignoring := false)) else (r1, s1);
    match s2
    case Line(start, len) => (r2, Return(Got(BytesAt(r2, start, len))))
    case NoLine => (r2, if cfg.singleRead then Return(Again) else Continue)
    case Bad => (r2, Return(Failed))
  }

  /** The while loop. */
  function Loop(cfg: Config, r: Reader, child: seq<Event>): (out: (Result, Reader, seq<Event>))
    requires WellFormed(cfg, r)
    ensures WellFormed(cfg, out.1) && Size(out.2) <= Size(child)
    decreases Size(child)
  {
    if r.end == cfg.bufsize && !r.ignoring then
      if cfg.truncate then (Got(r.buf), Reset(r).(ignoring := true), child)
      else if cfg.split then (Part(r.buf), Reset(r), child)
      else (Failed, r.(error := true), child)
    else
      var q := if r.end == cfg.bufsize then Reset(r) else r;
      if child == [] then (Again, q, [])
      else
        match child[0]
        case Wait => (Again, q, child[1..])
        case Fail => (Failed, q.(error := true), child[1..])
        case Eof =>
          if q.eof || q.pos == q.end then (AtEof, q, child)
          else
            var (r1, pass) := AfterRead(cfg, q.(eof := true));
            (if pass.Return? then pass.result else Again, r1, child)
        case Chunk(_) =>
          var room := cfg.bufsize - q.end;
          var (r1, pass) := AfterRead(cfg, Filled(q, Taken(child, room)));
          if pass.Return? then (pass.result, r1, Rest(child, room))
          else Loop(cfg, r1, Rest(child, room))
  }

  function Get(cfg: Config, r: Reader, child: seq<Event>): (out: (Result, Reader, seq<Event>))
    requires WellFormed(cfg, r)
    ensures WellFormed(cfg, out.1) && Size(out.2) <= Size(child)
  {
    if r.error then (Failed, r, child)
    else if r.eof then (AtEof, r, child)
    else if r.end != r.pos then
      var (r1, s1) := Scan(cfg, r);
      match s1
      case Line(start, len) => (Got(BytesAt(r1, start, len)), r1, child)
      case Bad => (Failed, r1.(error := true), child)
      case NoLine => Loop(cfg, r1, child)
    else Loop(cfg, Reset(r), child)
  }

  // ----- what the caller should see -----

  /** A complete line, end mark included, as it is handed out; None if it is not acceptable. */
  datatype Stripped = Some(line: string) | None

  predicate Acceptable(cfg: Config, raw: string)
    requires raw != []
  {
    !BadNul(cfg, raw) && 0 <= MarkLength(cfg, raw, |raw| - 1)
  }

  /** How much of a complete line is handed out. */
  function Kept(cfg: Config, raw: string): (n: int)
    requires raw != [] && Acceptable(cfg, raw)
    ensures 0 <= n <= |raw|
  {
    if cfg.returnEol then |raw| else |raw| - MarkLength(cfg, raw, |raw| - 1)
  }

  function Strip(cfg: Config, raw: string): Stripped
    requires raw != []
  {
    if Acceptable(cfg, raw) then Some(raw[..Kept(cfg, raw)]) else None
  }

  datatype Out =
    | Emit(line: string, ignoring: bool, rest: string)
    | Piece(piece: string, rest: string)
    | Broken(tooLong: bool)               // a bad line, or one that does not fit
    | Need(ignoring: bool, rest: string)  // nothing can be said before more bytes come

  /** The next outcome, given the bytes not handed out yet and whether a line's tail is being dropped. */
  function Next(cfg: Config, ignoring: bool, s: string): Out
    requires 0 < cfg.bufsize
    decreases |s|
  {
    var k := Find(s, Terminator(cfg));
    if k < |s| && k < cfg.bufsize then
      match Strip(cfg, s[..k + 1])
      case None => Broken(false)
      case Some(line) => if ignoring then Next(cfg, false, s[k + 1..]) else Emit(line, false, s[k + 1..])
    else if |s| >= cfg.bufsize then
      if ignoring then Next(cfg, true, s[cfg.bufsize..])
      else if cfg.truncate then Emit(s[..cfg.bufsize], true, s[cfg.bufsize..])
      else if cfg.split then Piece(s[..cfg.bufsize], s[cfg.bufsize..])
      else Broken(true)
    else Need(ignoring, s)
  }

  function Extended(out: Out, t: string): Out {
    match out
    case Emit(line, ignoring, rest) => Emit(line, ignoring, rest + t)
    case Piece(piece, rest) => Piece(piece, rest + t)
    case _ => out
  }

  lemma FindUnique(s: string, c: char, k: nat)
    requires k <= |s| && (k < |s| ==> s[k] == c) && forall j :: 0 <= j < k ==> s[j] != c
    ensures Find(s, c) == k
  {
    FindFirst(s, c);
    hide Find;
  }

  lemma FindAfter(s: string, c: char, n: nat)
    requires n <= Find(s, c)
    ensures Find(s[n..], c) == Find(s, c) - n
  {
    FindFirst(s, c);
    hide Find;
    FindUnique(s[n..], c, Find(s, c) - n);
  }

  lemma DropDrop(s: string, n: nat, m: nat)
    requires n + m <= |s|
    ensures s[n..][m..] == s[n + m..]
  {
  }

  lemma TakeTake(s: string, m: nat, n: nat)
    requires n <= m <= |s|
    ensures s[..m][..n] == s[..n]
  {
  }

  lemma FindExtends(s: string, t: string, c: char)
    ensures Find(s, c) < |s| ==> Find(s + t, c) == Find(s, c)
    ensures Find(s, c) == |s| ==> Find(s + t, c) >= |s|
    ensures forall n :: 0 <= n <= |s| ==> (s + t)[..n] == s[..n] && (s + t)[n..] == s[n..] + t
  {
    var k := Find(s, c);
    FindFirst(s, c);
    FindFirst(s + t, c);
    hide Find;
    if k < |s| {
      FindUnique(s + t, c, k);
    } else {
      assert forall i :: 0 <= i < |s| ==> (s + t)[i] == s[i];
    }
  }

  /** More bytes do not change an outcome; they only make one possible where there was none. */
  lemma {:induction false} NextExtends(cfg: Config, ignoring: bool, s: string, t: string)
    requires 0 < cfg.bufsize
    ensures var out := Next(cfg, ignoring, s);
      Next(cfg, ignoring, s + t) == if out.Need? then Next(cfg, out.ignoring, out.rest + t) else Extended(out, t)
    decreases |s|
  {
    var k := Find(s, Terminator(cfg));
    FindExtends(s, t, Terminator(cfg));
    hide Find, Strip;
    if k < |s| && k < cfg.bufsize {
      assert (s + t)[..k + 1] == s[..k + 1] && (s + t)[k + 1..] == s[k + 1..] + t;
      if ignoring && Strip(cfg, s[..k + 1]).Some? {
        NextExtends(cfg, false, s[k + 1..], t);
      }
    } else if |s| >= cfg.bufsize {
      assert (s + t)[..cfg.bufsize] == s[..cfg.bufsize] && (s + t)[cfg.bufsize..] == s[cfg.bufsize..] + t;
      if ignoring {
        NextExtends(cfg, true, s[cfg.bufsize..], t);
      }
    }
  }

  // ----- the buffer refines the bytes -----

  /**
   * Between calls: while a tail is being dropped no end of line is buffered, and what stands before the
   * current position is never a CR that could be mistaken for part of the next end mark.
   */
  predicate Ready(cfg: Config, r: Reader) {
    && WellFormed(cfg, r) && !r.eof && !r.error
    && (r.ignoring ==> NoMark(cfg, Avail(r)))
    && (r.pos > 0 ==> r.buf[r.pos - 1] == Terminator(cfg))
  }

  /** A complete line at the front of the buffer is the next one, however many bytes follow. */
  lemma LineIsNext(cfg: Config, avail: string, t: string, k: nat)
    requires |avail| <= cfg.bufsize && k < |avail| && k == Find(avail, Terminator(cfg))
    ensures match Strip(cfg, avail[..k + 1])
      case None => Next(cfg, false, avail + t) == Next(cfg, true, avail + t) == Broken(false)
      case Some(line) =>
        && Next(cfg, false, avail + t) == Emit(line, false, avail[k + 1..] + t)
        && Next(cfg, true, avail + t) == Next(cfg, false, avail[k + 1..] + t)
  {
    FindExtends(avail, t, Terminator(cfg));
    hide Find;
    assert (avail + t)[..k + 1] == avail[..k + 1] && (avail + t)[k + 1..] == avail[k + 1..] + t;
  }

  /** The end mark does not depend on where in the buffer the line stands. */
  lemma MarkIsLocal(cfg: Config, r: Reader, k: nat)
    requires Ready(cfg, r.(ignoring := false)) && r.pos + k < r.end
    ensures MarkLength(cfg, Avail(r)[..k + 1], k) == MarkLength(cfg, r.buf, r.pos + k) <= k + 1
  {
    assert k >= 1 ==> Avail(r)[..k + 1][k - 1] == r.buf[r.pos + k - 1];
  }

  lemma ScanShape(cfg: Config, r: Reader)
    requires Ready(cfg, r.(ignoring := false))
    requires Find(Avail(r), Terminator(cfg)) < |Avail(r)|
    ensures var k := Find(Avail(r), Terminator(cfg));
      && Scan(cfg, r).0 == r.(oldpos := r.pos, pos := r.pos + k + 1)
      && Scan(cfg, r).1 == if Acceptable(cfg, Avail(r)[..k + 1]) then Line(r.pos, Kept(cfg, Avail(r)[..k + 1])) else Bad
  {
    hide MarkLength, Find, Ready, Terminator, BadNul, NoMark;
    ReadyIs(cfg, r);
    MarkIsLocal(cfg, r, Find(Avail(r), Terminator(cfg)));
    hide Avail;
  }

  lemma ReadyIs(cfg: Config, r: Reader)
    requires Ready(cfg, r.(ignoring := false))
    ensures WellFormed(cfg, r) && !r.eof && !r.error
  {
    hide NoMark, Terminator;
  }

  lemma ScanStrips(cfg: Config, r: Reader)
    requires Ready(cfg, r.(ignoring := false))
    requires Find(Avail(r), Terminator(cfg)) < |Avail(r)|
    ensures var (r1, s1) := Scan(cfg, r);
      match Strip(cfg, Avail(r)[..Find(Avail(r), Terminator(cfg)) + 1])
      case None => s1 == Bad
      case Some(line) => s1.Line? && BytesAt(r1, s1.start, s1.len) == line
  {
    hide Scan, Find, Acceptable, Terminator, NoMark;
    ScanShape(cfg, r);
    var k := Find(Avail(r), Terminator(cfg));
    var raw := Avail(r)[..k + 1];
    if Acceptable(cfg, raw) {
      SliceOfSlice(r.buf, r.pos, r.end, k + 1, Kept(cfg, raw));
    }
  }

  lemma SliceOfSlice(buf: string, pos: nat, end: nat, m: nat, n: nat)
    requires pos <= end <= |buf| && n <= m <= end - pos
    ensures buf[pos..end][..m][..n] == buf[pos..pos + n]
  {
    assert buf[pos..end][..m] == buf[pos..pos + m];
    assert buf[pos..pos + m][..n] == buf[pos..pos + n];
  }

  lemma DropsFront(buf: string, pos: nat, end: nat, n: nat)
    requires pos <= end <= |buf| && n <= end - pos
    ensures buf[pos..end][n..] == buf[pos + n..end]
  {
  }

  lemma ScanFinds(cfg: Config, r: Reader, t: string)
    requires Ready(cfg, r.(ignoring := false))
    requires Find(Avail(r), Terminator(cfg)) < |Avail(r)|
    ensures var (r1, s1) := Scan(cfg, r);
      && r1 == r.(oldpos := r.pos, pos := r.pos + Find(Avail(r), Terminator(cfg)) + 1)
      && match s1
         case Line(start, len) =>
           && Next(cfg, false, Avail(r) + t) == Emit(BytesAt(r1, start, len), false, Avail(r1) + t)
           && Next(cfg, true, Avail(r) + t) == Next(cfg, false, Avail(r1) + t)
         case Bad => Next(cfg, false, Avail(r) + t) == Next(cfg, true, Avail(r) + t) == Broken(false)
         case NoLine => false
  {
    hide Next, Strip, Scan, Find, BytesAt, Acceptable, Kept, Ready, Terminator, NoMark;
    ReadyIs(cfg, r);
    var k := Find(Avail(r), Terminator(cfg));
    ScanShape(cfg, r);
    ScanStrips(cfg, r);
    LineIsNext(cfg, Avail(r), t, k);
    DropsFront(r.buf, r.pos, r.end, k + 1);
    assert Avail(r)[k + 1..] == Avail(Scan(cfg, r).0);
  }

  lemma ScanFindsNothing(cfg: Config, r: Reader)
    requires WellFormed(cfg, r) && !r.eof
    requires Find(Avail(r), Terminator(cfg)) == |Avail(r)|
    ensures var (r1, s1) := Scan(cfg, r);
      && s1 == NoLine && Avail(r1) == Avail(r) && r1.pos == 0
      && r1.ignoring == r.ignoring && !r1.eof && r1.error == r.error
      && NoMark(cfg, Avail(r))
  {
  }

  /** Only dropped bytes separate the two states; with nothing being dropped, nothing does. */
  predicate Advanced(cfg: Config, r: Reader, v: Reader, t: string, u: string)
    requires WellFormed(cfg, r) && WellFormed(cfg, v)
  {
    && Next(cfg, r.ignoring, Avail(r) + t) == Next(cfg, v.ignoring, Avail(v) + u)
    && (!r.ignoring ==> !v.ignoring && Avail(r) + t == Avail(v) + u)
    && |Avail(v) + u| <= |Avail(r) + t|
  }

  /** Nothing is buffered but the beginning of a line. */
  predicate Partial(cfg: Config, r: Reader) {
    Ready(cfg, r) && r.pos == 0 && NoMark(cfg, Avail(r))
  }

  lemma FoundIsReady(cfg: Config, r: Reader)
    requires Ready(cfg, r.(ignoring := false)) && Find(Avail(r), Terminator(cfg)) < |Avail(r)|
    ensures Ready(cfg, r.(oldpos := r.pos, pos := r.pos + Find(Avail(r), Terminator(cfg)) + 1, ignoring := false))
  {
    FindFirst(Avail(r), Terminator(cfg));
    hide Find;
    assert Avail(r)[Find(Avail(r), Terminator(cfg))] == r.buf[r.pos + Find(Avail(r), Terminator(cfg))];
  }

  /** What a pass over the buffer returns is the next outcome of the bytes. */
  lemma PassRefines(cfg: Config, r: Reader, t: string)
    requires Ready(cfg, r.(ignoring := false))
    ensures var (r1, pass) := AfterRead(cfg, r);
      match pass
      case Return(Got(line)) => Ready(cfg, r1) && Next(cfg, r.ignoring, Avail(r) + t) == Emit(line, r1.ignoring, Avail(r1) + t)
      case Return(Again) => cfg.singleRead && Partial(cfg, r1) && Advanced(cfg, r, r1, t, t)
      case Return(Failed) => Next(cfg, r.ignoring, Avail(r) + t) == Broken(false)
      case Return(_) => false
      case Continue => !cfg.singleRead && Partial(cfg, r1) && Advanced(cfg, r, r1, t, t)
  {
    hide Next, Scan, Find, BytesAt;
    if Find(Avail(r), Terminator(cfg)) < |Avail(r)| {
      ScanFinds(cfg, r, t);
      FoundIsReady(cfg, r);
      if r.ignoring {
        var q := Scan(cfg, r).0.(ignoring := false);
        SecondPass(cfg, q, t);
      }
    } else {
      ScanFindsNothing(cfg, r);
    }
  }

  lemma SecondPass(cfg: Config, q: Reader, t: string)
    requires Ready(cfg, q) && !q.ignoring
    ensures var (r1, s1) := Scan(cfg, q);
      match s1
      case Line(start, len) =>
        Ready(cfg, r1) && !r1.ignoring && Next(cfg, false, Avail(q) + t) == Emit(BytesAt(r1, start, len), false, Avail(r1) + t)
      case NoLine => Partial(cfg, r1) && !r1.ignoring && Avail(r1) == Avail(q)
      case Bad => Next(cfg, false, Avail(q) + t) == Broken(false)
  {
    hide Next, Scan, Find, BytesAt;
    if Find(Avail(q), Terminator(cfg)) < |Avail(q)| {
      ScanFinds(cfg, q, t);
      FoundIsReady(cfg, q);
    } else {
      ScanFindsNothing(cfg, q);
    }
  }

  // ----- the bytes a child delivers -----

  /** Everything it delivers before it ends or fails. */
  function Flow(child: seq<Event>): string {
    if child == [] then []
    else match child[0]
      case Chunk(c) => c + Flow(child[1..])
      case Wait => Flow(child[1..])
      case Eof => []
      case Fail => []
  }

  datatype Ending = Open | Ended | Broke

  function EndOf(child: seq<Event>): Ending {
    if child == [] then Open
    else match child[0]
      case Eof => Ended
      case Fail => Broke
      case _ => EndOf(child[1..])
  }

  lemma RestFlows(child: seq<Event>, n: nat)
    requires child != [] && child[0].Chunk? && 0 < n
    ensures Flow(child) == Taken(child, n) + Flow(Rest(child, n)) && EndOf(Rest(child, n)) == EndOf(child)
  {
    var c := child[0].bytes;
    if |c| > n {
      PrependedFlows(Chunk(c[n..]), child[1..]);
      assert Flow(child) == c + Flow(child[1..]) && EndOf(child) == EndOf(child[1..]);
      Associate(c[..n], c[n..], Flow(child[1..]));
      assert c == c[..n] + c[n..];
    }
  }

  lemma PrependedFlows(e: Event, child: seq<Event>)
    requires e.Chunk?
    ensures Flow([e] + child) == e.bytes + Flow(child) && EndOf([e] + child) == EndOf(child)
  {
    assert ([e] + child)[1..] == child;
  }

  /** All bytes not handed out yet: buffered ones, then those still to come. */
  function Pending(r: Reader, child: seq<Event>): string
    requires r.pos <= r.end <= |r.buf|
  {
    Avail(r) + Flow(child)
  }

  /** What a call does, in terms of the bytes. */
  predicate Refines(cfg: Config, r: Reader, child: seq<Event>, out: (Result, Reader, seq<Event>))
    requires WellFormed(cfg, r) && WellFormed(cfg, out.1)
  {
    var (res, v, rest) := out;
    var next := Next(cfg, r.ignoring, Pending(r, child));
    match res
    case Got(line) =>
      if v.eof then
        EndOf(child).Ended? && next.Need? && next.rest != [] && !BadNul(cfg, next.rest)
        && line == if next.ignoring then [] else next.rest
      else
        Ready(cfg, v) && EndOf(rest) == EndOf(child) && next == Emit(line, v.ignoring, Pending(v, rest))
    case Part(piece) =>
      Ready(cfg, v) && !v.ignoring && EndOf(rest) == EndOf(child) && next == Piece(piece, Pending(v, rest))
    case Again =>
      && Ready(cfg, v) && EndOf(rest) == EndOf(child)
      && Advanced(cfg, r, v, Flow(child), Flow(rest))
      && (if child == [] then next == Need(v.ignoring, Pending(v, rest)) && rest == [] else Size(rest) < Size(child))
    case AtEof => EndOf(child).Ended? && next.Need? && next.rest == []
    case Failed =>
      || next.Broken?
      || (EndOf(child).Broke? && next.Need?)
      || (EndOf(child).Ended? && next.Need? && BadNul(cfg, next.rest))
  }

  // ----- the loop refines the bytes -----

  lemma FullIsNext(cfg: Config, ignoring: bool, full: string, t: string)
    requires 0 < cfg.bufsize == |full| && NoMark(cfg, full)
    ensures Next(cfg, ignoring, full + t) ==
      if ignoring then Next(cfg, true, t)
      else if cfg.truncate then Emit(full, true, t)
      else if cfg.split then Piece(full, t)
      else Broken(true)
  {
    FindExtends(full, t, Terminator(cfg));
    hide Find;
    assert (full + t)[..cfg.bufsize] == full && (full + t)[cfg.bufsize..] == t;
  }

  lemma ShortIsNeed(cfg: Config, ignoring: bool, s: string)
    requires |s| < cfg.bufsize && NoMark(cfg, s)
    ensures Next(cfg, ignoring, s) == Need(ignoring, s)
  {
  }

  /** The buffer when the loop is about to read: a full one that is being dropped has been emptied. */
  function Emptied(cfg: Config, r: Reader): Reader {
    if r.end == cfg.bufsize then Reset(r) else r
  }

  lemma EmptiedAdvances(cfg: Config, r: Reader, t: string)
    requires Partial(cfg, r) && (r.ignoring || r.end < cfg.bufsize)
    ensures var q := Emptied(cfg, r);
      && Partial(cfg, q) && q.ignoring == r.ignoring && q.end < cfg.bufsize && Advanced(cfg, r, q, t, t)
  {
    if r.end == cfg.bufsize {
      assert Avail(r) == r.buf;
      FullIsNext(cfg, true, r.buf, t);
      assert Avail(Reset(r)) + t == t;
    }
  }

  lemma EofPass(cfg: Config, q: Reader)
    requires Partial(cfg, q) && q.pos < q.end
    ensures var (r1, pass) := AfterRead(cfg, q.(eof := true));
      && r1.eof
      && pass == Return(if BadNul(cfg, Avail(q)) then Failed else Got(if q.ignoring then [] else Avail(q)))
  {
    hide Find, MarkLength;
    var q1 := q.(eof := true);
    assert Avail(q1)[..|Avail(q1)|] == Avail(q);
    assert q.buf[0..q.end] == Avail(q);
  }

  /** A full buffer with no end of line in it. */
  lemma FullRefines(cfg: Config, r: Reader, child: seq<Event>)
    requires Partial(cfg, r) && r.end == cfg.bufsize && !r.ignoring
    ensures Refines(cfg, r, child, Loop(cfg, r, child))
  {
    hide Next, Find, Scan;
    assert Avail(r) == r.buf;
    FullIsNext(cfg, false, r.buf, Flow(child));
    assert Avail(Reset(r)) + Flow(child) == Flow(child);
  }

  lemma FilledHolds(cfg: Config, q: Reader, d: string)
    requires Partial(cfg, q) && q.end + |d| <= cfg.bufsize
    ensures var f := Filled(q, d);
      Ready(cfg, f.(ignoring := false)) && f.ignoring == q.ignoring && Avail(f) == Avail(q) + d
  {
    hide Terminator;
    var f := Filled(q, d);
    assert |f.buf| == |q.buf|;
  }

  /** Filling puts the child's bytes behind the buffered ones. */
  lemma FilledPends(cfg: Config, q: Reader, child: seq<Event>)
    requires Partial(cfg, q) && q.end < cfg.bufsize && child != [] && child[0].Chunk?
    ensures var room := cfg.bufsize - q.end;
      var f := Filled(q, Taken(child, room));
      && Ready(cfg, f.(ignoring := false)) && f.ignoring == q.ignoring
      && Pending(q, child) == Avail(f) + Flow(Rest(child, room)) && EndOf(Rest(child, room)) == EndOf(child)
  {
    var room := cfg.bufsize - q.end;
    RestFlows(child, room);
    FilledHolds(cfg, q, Taken(child, room));
    hide Flow, Rest, EndOf, Filled, Avail, Ready, Taken;
    Associate(Avail(q), Taken(child, room), Flow(Rest(child, room)));
  }

  /** Refinement carries over from a state that has advanced. */
  lemma RefinesFrom(cfg: Config, r: Reader, child: seq<Event>, q: Reader, rest: seq<Event>, out: (Result, Reader, seq<Event>))
    requires WellFormed(cfg, r) && WellFormed(cfg, q) && WellFormed(cfg, out.1)
    requires Advanced(cfg, r, q, Flow(child), Flow(rest)) && EndOf(rest) == EndOf(child)
    requires Refines(cfg, q, rest, out) && Size(out.2) <= Size(rest)
    requires rest == child || (child != [] && Size(rest) < Size(child))
    ensures Refines(cfg, r, child, out)
  {
    hide Next, Flow, EndOf, Avail, Ready, BadNul, Size;
  }

  /** A chunk: the child's bytes come in, and either something is returned or the loop goes round. */
  lemma {:induction false} ChunkRefines(cfg: Config, q: Reader, child: seq<Event>)
    requires Partial(cfg, q) && q.end < cfg.bufsize && child != [] && child[0].Chunk?
    ensures Refines(cfg, q, child, Loop(cfg, q, child))
    decreases Size(child), 0
  {
    var room := cfg.bufsize - q.end;
    var f, rest := Filled(q, Taken(child, room)), Rest(child, room);
    FilledPends(cfg, q, child);
    PassRefines(cfg, f, Flow(rest));
    var (r1, pass) := AfterRead(cfg, f);
    hide Next, Flow, EndOf, Filled, Rest, Taken, Avail, AfterRead, Ready;
    if pass.Continue? {
      LoopRefines(cfg, r1, rest);
      RefinesFrom(cfg, q, child, r1, rest, Loop(cfg, r1, rest));
    }
  }

  lemma LoopEmpties(cfg: Config, r: Reader, child: seq<Event>)
    requires WellFormed(cfg, r) && (r.ignoring || r.end < cfg.bufsize)
    ensures Loop(cfg, r, child) == Loop(cfg, Emptied(cfg, r), child)
  {
    hide AfterRead, Filled, Taken, Rest;
  }

  lemma {:induction false} LoopRefines(cfg: Config, r: Reader, child: seq<Event>)
    requires Partial(cfg, r)
    ensures Refines(cfg, r, child, Loop(cfg, r, child))
    decreases Size(child), 1
  {
    if r.end == cfg.bufsize && !r.ignoring {
      FullRefines(cfg, r, child);
    } else {
      var q := Emptied(cfg, r);
      EmptiedAdvances(cfg, r, Flow(child));
      LoopEmpties(cfg, r, child);
      hide Loop, Emptied, Next, Flow, Avail, EndOf, Refines, Ready, NoMark, Size;
      if child != [] && child[0].Chunk? {
        ChunkRefines(cfg, q, child);
      } else {
        IdleRefines(cfg, q, child);
      }
      RefinesFrom(cfg, r, child, q, child, Loop(cfg, q, child));
    }
  }

  /** No bytes: the child waits, ends, fails or has nothing more to say. */
  lemma IdleRefines(cfg: Config, q: Reader, child: seq<Event>)
    requires Partial(cfg, q) && q.end < cfg.bufsize && (child == [] || !child[0].Chunk?)
    ensures Refines(cfg, q, child, Loop(cfg, q, child))
  {
    ShortIsNeed(cfg, q.ignoring, Avail(q));
    assert Avail(q) + [] == Avail(q);
    if child != [] && child[0].Eof? && q.pos < q.end {
      EofPass(cfg, q);
    }
    hide Next, Find, AfterRead;
  }

  /**
   * A call of z_stream_line_get does to buffer and child what `Next` says of the bytes: a line is the
   * next line of all bytes not yet handed out, whatever pieces they come in; an AGAIN loses nothing but
   * the tail being dropped; end of stream and failure are reported when nothing else is left to say.
   */
  lemma GetRefines(cfg: Config, r: Reader, child: seq<Event>)
    requires Ready(cfg, r)
    ensures Refines(cfg, r, child, Get(cfg, r, child))
  {
    if r.end == r.pos {
      assert Avail(Reset(r)) == Avail(r) == [];
      LoopRefines(cfg, Reset(r), child);
      hide Loop, Next, Flow, EndOf, Refines;
      RefinesFrom(cfg, r, child, Reset(r), child, Loop(cfg, Reset(r), child));
    } else {
      hide Loop, Next, Flow, EndOf, Scan, Find;
      if Find(Avail(r), Terminator(cfg)) < |Avail(r)| {
        ScanFinds(cfg, r, Flow(child));
        FoundIsReady(cfg, r);
      } else {
        ScanFindsNothing(cfg, r);
        var r1 := Scan(cfg, r).0;
        LoopRefines(cfg, r1, child);
        RefinesFrom(cfg, r, child, r1, child, Loop(cfg, r1, child));
      }
    }
  }

  // ----- any number of calls, any way of cutting the bytes -----

  datatype Item = LineOut(line: string) | PieceOut(piece: string) | EndOut | ErrorOut

  lemma {:induction false} NextShrinks(cfg: Config, ignoring: bool, s: string)
    requires 0 < cfg.bufsize
    ensures var out := Next(cfg, ignoring, s); (out.Emit? || out.Piece?) ==> |out.rest| < |s|
    decreases |s|
  {
    var k := Find(s, Terminator(cfg));
    if k < |s| && k < cfg.bufsize {
      if ignoring && Strip(cfg, s[..k + 1]).Some? {
        NextShrinks(cfg, false, s[k + 1..]);
      }
    } else if |s| >= cfg.bufsize && ignoring {
      NextShrinks(cfg, true, s[cfg.bufsize..]);
    }
  }

  /** Calling until the child has nothing more to say, or the stream ends, or a call fails. */
  function Drive(cfg: Config, r: Reader, child: seq<Event>): seq<Item>
    requires Ready(cfg, r)
    decreases |Pending(r, child)|, Size(child)
  {
    var (res, v, rest) := Get(cfg, r, child);
    GetRefines(cfg, r, child);
    NextShrinks(cfg, r.ignoring, Pending(r, child));
    match res
    case Got(line) => if v.eof then [LineOut(line), EndOut] else [LineOut(line)] + Drive(cfg, v, rest)
    case Part(piece) => [PieceOut(piece)] + Drive(cfg, v, rest)
    case Again => if child == [] then [] else Drive(cfg, v, rest)
    case AtEof => [EndOut]
    case Failed => [ErrorOut]
  }

  /** What the bytes alone say. */
  function Lines(cfg: Config, ignoring: bool, s: string, ending: Ending): seq<Item>
    requires 0 < cfg.bufsize
    decreases |s|
  {
    NextShrinks(cfg, ignoring, s);
    match Next(cfg, ignoring, s)
    case Emit(line, dropping, rest) => [LineOut(line)] + Lines(cfg, dropping, rest, ending)
    case Piece(piece, rest) => [PieceOut(piece)] + Lines(cfg, false, rest, ending)
    case Broken(_) => [ErrorOut]
    case Need(dropping, rest) =>
      match ending
      case Open => []
      case Broke => [ErrorOut]
      case Ended =>
        if rest == [] then [EndOut]
        else if BadNul(cfg, rest) then [ErrorOut]
        else [LineOut(if dropping then [] else rest), EndOut]
  }

  lemma LinesByNext(cfg: Config, i: bool, s: string, j: bool, u: string, ending: Ending)
    requires 0 < cfg.bufsize && Next(cfg, i, s) == Next(cfg, j, u)
    ensures Lines(cfg, i, s, ending) == Lines(cfg, j, u, ending)
  {
    hide Next;
  }

  /** The calls after which `Drive` stops, and what it has collected then. */
  predicate Stops(child: seq<Event>, res: Result, v: Reader) {
    (res.Got? && v.eof) || res.AtEof? || res.Failed? || (res.Again? && child == [])
  }

  function Last(res: Result): seq<Item> {
    match res
    case Got(line) => [LineOut(line), EndOut]
    case AtEof => [EndOut]
    case Failed => [ErrorOut]
    case _ => []
  }

  lemma LastLines(cfg: Config, r: Reader, child: seq<Event>, out: (Result, Reader, seq<Event>))
    requires WellFormed(cfg, r) && WellFormed(cfg, out.1)
    requires Refines(cfg, r, child, out) && Stops(child, out.0, out.1)
    ensures Last(out.0) == Lines(cfg, r.ignoring, Pending(r, child), EndOf(child))
  {
    hide Next, Flow, Ready, Size, Advanced;
    if out.0.Got? {
      assert Last(out.0) == Lines(cfg, r.ignoring, Pending(r, child), EndOf(child));
    } else if out.0.AtEof? {
      assert Last(out.0) == Lines(cfg, r.ignoring, Pending(r, child), EndOf(child));
    } else if out.0.Failed? {
      assert Last(out.0) == Lines(cfg, r.ignoring, Pending(r, child), EndOf(child));
    }
  }

  lemma LastCall(cfg: Config, r: Reader, child: seq<Event>)
    requires Ready(cfg, r) && Stops(child, Get(cfg, r, child).0, Get(cfg, r, child).1)
    ensures Drive(cfg, r, child) == Lines(cfg, r.ignoring, Pending(r, child), EndOf(child))
  {
    GetRefines(cfg, r, child);
    assert Drive(cfg, r, child) == Last(Get(cfg, r, child).0);
    hide Drive, Get, Refines, Lines, Pending, EndOf;
    LastLines(cfg, r, child, Get(cfg, r, child));
  }

  lemma {:induction false} DriveIsLines(cfg: Config, r: Reader, child: seq<Event>)
    requires Ready(cfg, r)
    ensures Drive(cfg, r, child) == Lines(cfg, r.ignoring, Pending(r, child), EndOf(child))
    decreases |Pending(r, child)|, Size(child)
  {
    GetRefines(cfg, r, child);
    NextShrinks(cfg, r.ignoring, Pending(r, child));
    var (res, v, rest) := Get(cfg, r, child);
    if Stops(child, res, v) {
      LastCall(cfg, r, child);
    } else {
      hide Get, Next, Flow, EndOf, Avail, BadNul, Ready, Size;
      DriveIsLines(cfg, v, rest);
      if res.Again? {
        LinesByNext(cfg, r.ignoring, Pending(r, child), v.ignoring, Pending(v, rest), EndOf(child));
      }
    }
  }

  function Fresh(cfg: Config): Reader {
    Reader(seq(cfg.bufsize, _ => NUL), 0, 0, 0, false, false, false)
  }

  /**
   * However the child cuts the same bytes into reads, and however often it says "try again", the caller
   * gets the same lines, up to the end of the stream or the first error.
   */
  lemma ChunkingDoesNotMatter(cfg: Config, a: seq<Event>, b: seq<Event>)
    requires 0 < cfg.bufsize && Flow(a) == Flow(b) && EndOf(a) == EndOf(b)
    ensures Drive(cfg, Fresh(cfg), a) == Drive(cfg, Fresh(cfg), b) == Lines(cfg, false, Flow(a), EndOf(a))
  {
    DriveIsLines(cfg, Fresh(cfg), a);
    DriveIsLines(cfg, Fresh(cfg), b);
    assert Avail(Fresh(cfg)) + Flow(a) == Flow(a);
  }

  // ----- which lines these are, with ZRL_TRUNCATE -----

  /** How much of a complete line that fits is handed out. */
  function Clipped(cfg: Config, raw: string): string
    requires raw != []
  {
    if |raw| <= cfg.bufsize then
      raw[..
        if cfg.returnEol then |raw|
        else if cfg.eol.CrLf? && |raw| >= 2 && raw[|raw| - 2] == CR then |raw| - 2
        else if cfg.eol.Plain? then |raw|
        else |raw| - 1]
    else raw[..cfg.bufsize]
  }

  /** What is left after whole blocks of `n` are taken away. */
  function Remainder(t: string, n: nat): (rest: string)
    requires 0 < n
    ensures |rest| < n
    decreases |t|
  {
    if |t| < n then t else Remainder(t[n..], n)
  }

  /** The last block of `n` or fewer. */
  function LastBlock(t: string, n: nat): (rest: string)
    requires 0 < n && t != []
    ensures 0 < |rest| <= n
    decreases |t|
  {
    if |t| <= n then t else LastBlock(t[n..], n)
  }

  /** The bytes cut at every end mark, each line on its own. */
  function SplitLines(cfg: Config, s: string, ending: Ending): seq<Item>
    requires 0 < cfg.bufsize
    decreases |s|
  {
    var k := Find(s, Terminator(cfg));
    if k < |s| then [LineOut(Clipped(cfg, s[..k + 1]))] + SplitLines(cfg, s[k + 1..], ending)
    else if |s| < cfg.bufsize then
      match ending
      case Open => []
      case Broke => [ErrorOut]
      case Ended => if s == [] then [EndOut] else [LineOut(s), EndOut]
    else
      // an overlong last line: its beginning, and at the end of the stream one empty line more
      // unless what was dropped fills the buffer exactly
      [LineOut(s[..cfg.bufsize])] +
      match ending
      case Open => []
      case Broke => [ErrorOut]
      case Ended => if Remainder(s, cfg.bufsize) == [] then [EndOut] else [LineOut([]), EndOut]
  }

  /**
   * What the reader with ZRL_TRUNCATE checks of the bytes: of a line that fits, all of it; of a longer one
   * only the last block that is dropped, as if it were a line, so that a CR at the end of the block before
   * is not seen.  A last line without an end mark is checked when the stream ends.
   */
  predicate Clean(cfg: Config, s: string, ending: Ending)
    requires 0 < cfg.bufsize
    decreases |s|
  {
    var n, k := cfg.bufsize, Find(s, Terminator(cfg));
    if k == |s| then
      ending.Ended? ==> !BadNul(cfg, Remainder(s, n))
    else if k < n then
      Acceptable(cfg, s[..k + 1]) && Clean(cfg, s[k + 1..], ending)
    else if Acceptable(cfg, LastBlock(s[..k + 1][n..], n)) then
      Clean(cfg, s[k + 1..], ending)
    else
      // the error is reported a little early if it is the child's own
      NoMark(cfg, s[k + 1..]) && |s[k + 1..]| < n && ending.Broke?
  }

  lemma StripClips(cfg: Config, raw: string)
    requires raw != [] && |raw| <= cfg.bufsize && Acceptable(cfg, raw)
    ensures Strip(cfg, raw) == Some(Clipped(cfg, raw))
  {
    hide BadNul;
  }

  lemma DropOne(cfg: Config, t: string)
    requires 0 < cfg.bufsize && Find(t, Terminator(cfg)) < |t|
    ensures var n, k := cfg.bufsize, Find(t, Terminator(cfg));
      Next(cfg, true, t) ==
        if k >= n then Next(cfg, true, t[n..])
        else if Acceptable(cfg, t[..k + 1]) then Next(cfg, false, t[k + 1..])
        else Broken(false)
  {
    hide Strip, Acceptable, Find, Terminator;
    StripsIf(cfg, t[..Find(t, Terminator(cfg)) + 1]);
  }

  lemma StripsIf(cfg: Config, raw: string)
    requires raw != []
    ensures Strip(cfg, raw).Some? <==> Acceptable(cfg, raw)
  {
    hide Acceptable, Kept;
  }

  lemma LastOfMore(t: string, n: nat, k: nat)
    requires 0 < n <= k < |t|
    ensures LastBlock(t[..k + 1], n) == LastBlock(t[n..][..k - n + 1], n)
  {
    assert t[..k + 1][n..] == t[n..][..k - n + 1];
  }

  /** While a tail is dropped, the next line is the one after the next end mark, if the last block is acceptable. */
  lemma {:induction false} DropsToTheMark(cfg: Config, t: string)
    requires 0 < cfg.bufsize && Find(t, Terminator(cfg)) < |t|
    ensures var k := Find(t, Terminator(cfg));
      Next(cfg, true, t) ==
        if Acceptable(cfg, LastBlock(t[..k + 1], cfg.bufsize)) then Next(cfg, false, t[k + 1..]) else Broken(false)
    decreases |t|
  {
    var n, k := cfg.bufsize, Find(t, Terminator(cfg));
    hide Next, Find, Acceptable;
    DropOne(cfg, t);
    if k >= n {
      FindAfter(t, Terminator(cfg), n);
      DropDrop(t, n, k - n + 1);
      LastOfMore(t, n, k);
      hide LastBlock;
      DropsToTheMark(cfg, t[n..]);
    }
  }

  lemma {:induction false} DropsToTheEnd(cfg: Config, t: string)
    requires 0 < cfg.bufsize && Find(t, Terminator(cfg)) == |t|
    ensures Next(cfg, true, t) == Need(true, Remainder(t, cfg.bufsize))
    decreases |t|
  {
    var n := cfg.bufsize;
    if |t| >= n {
      FindAfter(t, Terminator(cfg), n);
      hide Find, Strip;
      DropsToTheEnd(cfg, t[n..]);
    }
  }

  lemma FullIsEmitted(cfg: Config, s: string)
    requires 0 < cfg.bufsize && cfg.truncate && cfg.bufsize <= Find(s, Terminator(cfg))
    ensures Next(cfg, false, s) == Emit(s[..cfg.bufsize], true, s[cfg.bufsize..])
  {
    hide Find;
  }

  lemma LinesOfEmit(cfg: Config, ignoring: bool, s: string, ending: Ending)
    requires 0 < cfg.bufsize && Next(cfg, ignoring, s).Emit?
    ensures var out := Next(cfg, ignoring, s);
      Lines(cfg, ignoring, s, ending) == [LineOut(out.line)] + Lines(cfg, out.ignoring, out.rest, ending)
  {
    hide Next;
  }

  lemma LinesOfBroken(cfg: Config, ignoring: bool, s: string, ending: Ending)
    requires 0 < cfg.bufsize && Next(cfg, ignoring, s).Broken?
    ensures Lines(cfg, ignoring, s, ending) == [ErrorOut]
  {
    hide Next;
  }

  lemma ShortIsNext(cfg: Config, s: string)
    requires Find(s, Terminator(cfg)) < |s| && Find(s, Terminator(cfg)) < cfg.bufsize
    ensures var k := Find(s, Terminator(cfg));
      Next(cfg, false, s) ==
        if Acceptable(cfg, s[..k + 1]) then Emit(Clipped(cfg, s[..k + 1]), false, s[k + 1..]) else Broken(false)
  {
    var raw := s[..Find(s, Terminator(cfg)) + 1];
    if Acceptable(cfg, raw) {
      StripClips(cfg, raw);
    }
    hide Find, Clipped, Acceptable, Kept;
  }

  lemma ShortLine(cfg: Config, s: string, ending: Ending)
    requires Find(s, Terminator(cfg)) < |s| && Find(s, Terminator(cfg)) < cfg.bufsize
    ensures var k := Find(s, Terminator(cfg));
      Lines(cfg, false, s, ending) ==
        if Acceptable(cfg, s[..k + 1]) then [LineOut(Clipped(cfg, s[..k + 1]))] + Lines(cfg, false, s[k + 1..], ending)
        else [ErrorOut]
  {
    hide Find, Next, Clipped, Lines, Acceptable;
    ShortIsNext(cfg, s);
    if Acceptable(cfg, s[..Find(s, Terminator(cfg)) + 1]) {
      LinesOfEmit(cfg, false, s, ending);
    } else {
      LinesOfBroken(cfg, false, s, ending);
    }
  }

  lemma LongIsClipped(cfg: Config, s: string, k: nat)
    requires cfg.bufsize <= k < |s|
    ensures Clipped(cfg, s[..k + 1]) == s[..cfg.bufsize]
  {
    TakeTake(s, k + 1, cfg.bufsize);
  }

  /** What follows the beginning of an overlong line. */
  lemma AfterOverlong(cfg: Config, s: string, ending: Ending)
    requires 0 < cfg.bufsize <= Find(s, Terminator(cfg)) < |s|
    ensures var n, k := cfg.bufsize, Find(s, Terminator(cfg));
      Lines(cfg, true, s[n..], ending) ==
        if Acceptable(cfg, LastBlock(s[..k + 1][n..], n)) then Lines(cfg, false, s[k + 1..], ending) else [ErrorOut]
  {
    hide Find, Next, Lines, Acceptable, LastBlock;
    var n, k := cfg.bufsize, Find(s, Terminator(cfg));
    FindAfter(s, Terminator(cfg), n);
    DropsToTheMark(cfg, s[n..]);
    DropDrop(s, n, k - n + 1);
    assert s[..k + 1][n..] == s[n..][..k - n + 1];
    if Acceptable(cfg, LastBlock(s[..k + 1][n..], n)) {
      LinesByNext(cfg, true, s[n..], false, s[k + 1..], ending);
    } else {
      LinesOfBroken(cfg, true, s[n..], ending);
    }
  }

  lemma OverlongLine(cfg: Config, s: string, ending: Ending)
    requires 0 < cfg.bufsize <= Find(s, Terminator(cfg)) < |s| && cfg.truncate
    ensures var n, k := cfg.bufsize, Find(s, Terminator(cfg));
      Lines(cfg, false, s, ending) ==
        [LineOut(Clipped(cfg, s[..k + 1]))] +
        if Acceptable(cfg, LastBlock(s[..k + 1][n..], n)) then Lines(cfg, false, s[k + 1..], ending) else [ErrorOut]
  {
    hide Find, Next, Lines, Clipped, Acceptable, LastBlock;
    FullIsEmitted(cfg, s);
    LinesOfEmit(cfg, false, s, ending);
    LongIsClipped(cfg, s, Find(s, Terminator(cfg)));
    AfterOverlong(cfg, s, ending);
  }

  lemma NoMarkLeft(cfg: Config, s: string, ending: Ending)
    requires 0 < cfg.bufsize && cfg.truncate && Find(s, Terminator(cfg)) == |s|
    ensures Lines(cfg, false, s, ending) == SplitLines(cfg, s, ending) <==> Clean(cfg, s, ending)
  {
    var n := cfg.bufsize;
    if |s| < n {
      ShortIsNeed(cfg, false, s);
      hide Next;
    } else {
      FullIsEmitted(cfg, s);
      LinesOfEmit(cfg, false, s, ending);
      FindAfter(s, Terminator(cfg), n);
      DropsToTheEnd(cfg, s[n..]);
      hide Next, Find;
    }
  }

  lemma SplitIsError(cfg: Config, s: string, ending: Ending)
    requires 0 < cfg.bufsize
    ensures SplitLines(cfg, s, ending) == [ErrorOut] <==> NoMark(cfg, s) && |s| < cfg.bufsize && ending.Broke?
  {
    hide Find, Clipped, Remainder;
    if SplitLines(cfg, s, ending) == [ErrorOut] {
      assert SplitLines(cfg, s, ending)[0] == ErrorOut;
    }
  }

  lemma SameHead(item: Item, a: seq<Item>, b: seq<Item>)
    ensures [item] + a == [item] + b <==> a == b
  {
    assert ([item] + a)[1..] == a && ([item] + b)[1..] == b;
  }

  /**
   * With ZRL_TRUNCATE the lines are the split at the end mark, each cut to `bufsize` bytes on its own, if
   * and only if the bytes are clean.
   */
  lemma {:induction false} TruncatedLinesAreTheSplit(cfg: Config, s: string, ending: Ending)
    requires 0 < cfg.bufsize && cfg.truncate
    ensures Lines(cfg, false, s, ending) == SplitLines(cfg, s, ending) <==> Clean(cfg, s, ending)
    decreases |s|
  {
    var n, k := cfg.bufsize, Find(s, Terminator(cfg));
    if k == |s| {
      NoMarkLeft(cfg, s, ending);
    } else {
      TruncatedLinesAreTheSplit(cfg, s[k + 1..], ending);
      OneLineIsSplit(cfg, s, ending);
    }
  }

  lemma OneLineIsSplit(cfg: Config, s: string, ending: Ending)
    requires 0 < cfg.bufsize && cfg.truncate && Find(s, Terminator(cfg)) < |s|
    requires var rest := s[Find(s, Terminator(cfg)) + 1..];
      Lines(cfg, false, rest, ending) == SplitLines(cfg, rest, ending) <==> Clean(cfg, rest, ending)
    ensures Lines(cfg, false, s, ending) == SplitLines(cfg, s, ending) <==> Clean(cfg, s, ending)
  {
    hide Find, Clipped, Lines, Acceptable, LastBlock, NoMark;
    var k := Find(s, Terminator(cfg));
    var head, rest := LineOut(Clipped(cfg, s[..k + 1])), s[k + 1..];
    SameHead(head, Lines(cfg, false, rest, ending), SplitLines(cfg, rest, ending));
    if k < cfg.bufsize {
      ShortLine(cfg, s, ending);
      assert ([head] + SplitLines(cfg, rest, ending))[0] == head;
    } else {
      OverlongLine(cfg, s, ending);
      SplitIsError(cfg, rest, ending);
      SameHead(head, [ErrorOut], SplitLines(cfg, rest, ending));
    }
  }

  /** With these flags no line is unacceptable, and all bytes are clean. */
  predicate Lenient(cfg: Config) {
    (cfg.eol.Nul? || cfg.nulNonfatal) && !(cfg.eol.CrLf? && cfg.eolFatal)
  }

  lemma {:induction false} LenientIsClean(cfg: Config, s: string, ending: Ending)
    requires 0 < cfg.bufsize && Lenient(cfg)
    ensures Clean(cfg, s, ending)
    decreases |s|
  {
    hide Find, LastBlock, Remainder;
    var k := Find(s, Terminator(cfg));
    if k < |s| {
      LenientIsClean(cfg, s[k + 1..], ending);
    }
  }

  /** What is left of a number when `n` is taken away as often as it can be. */
  function Leftover(len: nat, n: nat): nat
    requires 0 < n
    decreases len
  {
    if len < n then len else Leftover(len - n, n)
  }

  lemma {:induction false} LastBlockIs(t: string, n: nat)
    requires 1 < n && t != []
    ensures var last := LastBlock(t, n);
      && (|last| == 1 <==> Leftover(|t|, n) == 1) && last[|last| - 1] == t[|t| - 1]
      && (|last| >= 2 ==> last[|last| - 2] == t[|t| - 2])
      && (NUL in last ==> NUL in t)
    decreases |t|
  {
    if |t| > n {
      LastBlockIs(t[n..], n);
      assert NUL in t[n..] ==> NUL in t;
    }
  }

  /**
   * A correct CRLF line that is too long is reported as a bad one, with ZRL_EOL_FATAL, exactly if its LF
   * begins a block.
   */
  lemma GoodLineIsBad(cfg: Config, raw: string)
    requires 1 < cfg.bufsize < |raw| && cfg.eol.CrLf? && cfg.eolFatal && Acceptable(cfg, raw)
    ensures Acceptable(cfg, LastBlock(raw[cfg.bufsize..], cfg.bufsize)) <==> Leftover(|raw|, cfg.bufsize) != 1
  {
    hide LastBlock;
    var n := cfg.bufsize;
    var tail := raw[n..];
    LastBlockIs(tail, n);
    assert NUL in tail ==> NUL in raw;
    assert !BadNul(cfg, LastBlock(tail, n));
    hide BadNul;
    assert Leftover(|raw|, n) == Leftover(|tail|, n);
    hide Leftover;
    assert tail[|tail| - 1] == raw[|raw| - 1];
    assert |tail| >= 2 ==> tail[|tail| - 2] == raw[|raw| - 2];
  }

  /** A correct CRLF line, one byte too long: its CR is in the block that was handed out. */
  lemma CutBeforeTheLfIsAnError(cfg: Config, ending: Ending)
    requires cfg.bufsize == 4 && cfg.truncate && cfg.eol.CrLf? && cfg.eolFatal
    ensures Lines(cfg, false, "abc\r\n", ending) == [LineOut("abc\r"), ErrorOut]
  {
    hide Find, Lines;
    FindUnique("abc\r\n", LF, 4);
    FindUnique("\n", LF, 0);
    assert "abc\r\n"[..4] == "abc\r" && "abc\r\n"[4..] == "\n" && "\n"[..1] == "\n";
    FullIsEmitted(cfg, "abc\r\n");
    LinesOfEmit(cfg, false, "abc\r\n", ending);
    assert Next(cfg, true, "\n") == Broken(false);
    LinesOfBroken(cfg, true, "\n", ending);
  }

  /** A NUL among the bytes to be dropped. */
  lemma DroppedNulIsAnError(cfg: Config, ending: Ending)
    requires cfg.bufsize == 4 && cfg.truncate && cfg.eol.Nl? && !cfg.nulNonfatal
    ensures Lines(cfg, false, "abcd\0\n", ending) == [LineOut("abcd"), ErrorOut]
  {
    hide Find, Lines;
    FindUnique("abcd\0\n", LF, 5);
    FindUnique("\0\n", LF, 1);
    assert "abcd\0\n"[..4] == "abcd" && "abcd\0\n"[4..] == "\0\n" && "\0\n"[..2] == "\0\n";
    FullIsEmitted(cfg, "abcd\0\n");
    LinesOfEmit(cfg, false, "abcd\0\n", ending);
    assert "\0\n"[0] == NUL;
    assert Next(cfg, true, "\0\n") == Broken(false);
    LinesOfBroken(cfg, true, "\0\n", ending);
  }

  // ----- after an error the cutting does matter -----

  /** In the loop an error is stored exactly if a line is too long, or the child fails when nothing else is left. */
  predicate Sticks(cfg: Config, r: Reader, child: seq<Event>, out: (Result, Reader, seq<Event>))
    requires WellFormed(cfg, r)
  {
    var next := Next(cfg, r.ignoring, Pending(r, child));
    out.0.Failed? ==> (out.1.error <==> next == Broken(true) || (EndOf(child).Broke? && next.Need?))
  }

  lemma SticksFrom(cfg: Config, r: Reader, child: seq<Event>, q: Reader, rest: seq<Event>, out: (Result, Reader, seq<Event>))
    requires WellFormed(cfg, r) && WellFormed(cfg, q)
    requires Advanced(cfg, r, q, Flow(child), Flow(rest)) && EndOf(rest) == EndOf(child) && Sticks(cfg, q, rest, out)
    ensures Sticks(cfg, r, child, out)
  {
    hide Next, Flow, EndOf, Avail;
  }

  lemma FullSticks(cfg: Config, r: Reader, child: seq<Event>)
    requires Partial(cfg, r) && r.end == cfg.bufsize && !r.ignoring
    ensures Sticks(cfg, r, child, Loop(cfg, r, child))
  {
    hide Next, Find, Scan;
    assert Avail(r) == r.buf;
    FullIsNext(cfg, false, r.buf, Flow(child));
  }

  lemma IdleSticks(cfg: Config, q: Reader, child: seq<Event>)
    requires Partial(cfg, q) && q.end < cfg.bufsize && (child == [] || !child[0].Chunk?)
    ensures Sticks(cfg, q, child, Loop(cfg, q, child))
  {
    ShortIsNeed(cfg, q.ignoring, Avail(q));
    assert Avail(q) + [] == Avail(q);
    PassKeepsError(cfg, q.(eof := true));
    hide Next, Find, AfterRead;
  }

  lemma {:induction false} ChunkSticks(cfg: Config, q: Reader, child: seq<Event>)
    requires Partial(cfg, q) && q.end < cfg.bufsize && child != [] && child[0].Chunk?
    ensures Sticks(cfg, q, child, Loop(cfg, q, child))
    decreases Size(child), 0
  {
    var room := cfg.bufsize - q.end;
    var f, rest := Filled(q, Taken(child, room)), Rest(child, room);
    FilledPends(cfg, q, child);
    PassRefines(cfg, f, Flow(rest));
    PassKeepsError(cfg, f);
    var (r1, pass) := AfterRead(cfg, f);
    hide Next, Flow, EndOf, Filled, Rest, Taken, Avail, AfterRead, Ready;
    if pass.Continue? {
      LoopSticks(cfg, r1, rest);
      SticksFrom(cfg, q, child, r1, rest, Loop(cfg, r1, rest));
    }
  }

  lemma {:induction false} LoopSticks(cfg: Config, r: Reader, child: seq<Event>)
    requires Partial(cfg, r)
    ensures Sticks(cfg, r, child, Loop(cfg, r, child))
    decreases Size(child), 1
  {
    if r.end == cfg.bufsize && !r.ignoring {
      FullSticks(cfg, r, child);
    } else {
      var q := Emptied(cfg, r);
      EmptiedAdvances(cfg, r, Flow(child));
      LoopEmpties(cfg, r, child);
      hide Loop, Emptied, Next, Flow, Avail, EndOf, Sticks, Ready, NoMark, Size;
      if child != [] && child[0].Chunk? {
        ChunkSticks(cfg, q, child);
      } else {
        IdleSticks(cfg, q, child);
      }
      SticksFrom(cfg, r, child, q, child, Loop(cfg, q, child));
    }
  }

  lemma PassKeepsError(cfg: Config, r: Reader)
    requires WellFormed(cfg, r)
    ensures AfterRead(cfg, r).0.error == r.error
  {
    hide Find, MarkLength;
  }

  /**
   * The stored error: when a call fails, all later calls fail too exactly if a complete line was already
   * buffered when that call began, or the line is too long for the buffer (with neither ZRL_TRUNCATE nor
   * ZRL_SPLIT), or the child failed.  A bad line that was still to be read leaves no trace.
   */
  lemma ErrorSticksIffLineWasBuffered(cfg: Config, r: Reader, child: seq<Event>)
    requires Ready(cfg, r) && Get(cfg, r, child).0.Failed?
    ensures var next := Next(cfg, r.ignoring, Pending(r, child));
      Get(cfg, r, child).1.error <==>
        !NoMark(cfg, Avail(r)) || next == Broken(true) || (EndOf(child).Broke? && next.Need?)
  {
    if r.end == r.pos {
      assert Avail(Reset(r)) == Avail(r) == [];
      LoopSticks(cfg, Reset(r), child);
      hide Loop, Next, Flow, EndOf;
    } else if Find(Avail(r), Terminator(cfg)) == |Avail(r)| {
      ScanFindsNothing(cfg, r);
      LoopSticks(cfg, Scan(cfg, r).0, child);
      hide Loop, Next, Flow, EndOf, Scan;
    } else {
      ScanFinds(cfg, r, Flow(child));
      hide Loop, Next, Flow, EndOf;
    }
  }

  /** When a line is too long, if no tail is being dropped. */
  lemma TooLongIs(cfg: Config, s: string)
    requires 0 < cfg.bufsize
    ensures Next(cfg, false, s) == Broken(true) <==>
      cfg.bufsize <= Find(s, Terminator(cfg)) && !cfg.truncate && !cfg.split
  {
    hide Find, Strip;
  }

  /** A complete line. */
  predicate OneLine(cfg: Config, raw: string) {
    raw != [] && Find(raw, Terminator(cfg)) == |raw| - 1
  }

  lemma FirstOfMore(cfg: Config, raw: string, t: string)
    requires OneLine(cfg, raw)
    ensures Find(raw + t, Terminator(cfg)) == |raw| - 1
    ensures (raw + t)[..|raw|] == raw && (raw + t)[|raw|..] == t
  {
    FindExtends(raw, t, Terminator(cfg));
  }

  predicate Idle(cfg: Config, r: Reader) {
    Ready(cfg, r) && r.pos == r.end && !r.ignoring
  }

  /** A line is read, perhaps with more behind it: it is handed out or refused, and the rest is buffered. */
  lemma LineRead(cfg: Config, r: Reader, raw: string, t: string, child: seq<Event>)
    requires Idle(cfg, r) && OneLine(cfg, raw) && |raw + t| <= cfg.bufsize
    ensures var (res, v, rest) := Get(cfg, r, [Chunk(raw + t)] + child);
      && (if Acceptable(cfg, raw) then res == Got(raw[..Kept(cfg, raw)]) else res == Failed)
      && Ready(cfg, v) && Avail(v) == t && !v.ignoring && rest == child
  {
    var q, events := Reset(r), [Chunk(raw + t)] + child;
    assert events[1..] == child;
    FilledHolds(cfg, q, raw + t);
    var f := Filled(q, raw + t);
    assert Avail(q) + (raw + t) == raw + t;
    FirstOfMore(cfg, raw, t);
    LineScanned(cfg, f, raw, t);
    PassOverOne(cfg, f);
    hide AfterRead, Scan, Find, Ready, Filled;
  }

  /** A line is buffered already: if it is refused, the error is stored. */
  lemma LineBuffered(cfg: Config, r: Reader, raw: string, t: string, child: seq<Event>)
    requires Ready(cfg, r) && !r.ignoring && Avail(r) == raw + t && OneLine(cfg, raw)
    ensures var (res, v, rest) := Get(cfg, r, child);
      && (if Acceptable(cfg, raw) then res == Got(raw[..Kept(cfg, raw)]) else res == Failed)
      && v.error == !Acceptable(cfg, raw)
  {
    FirstOfMore(cfg, raw, t);
    LineScanned(cfg, r, raw, t);
    hide Scan, Find, Loop, Acceptable;
  }

  lemma LineScanned(cfg: Config, f: Reader, raw: string, t: string)
    requires Ready(cfg, f.(ignoring := false)) && !f.ignoring && Avail(f) == raw + t && OneLine(cfg, raw)
    ensures var (v, s1) := Scan(cfg, f);
      && (if Acceptable(cfg, raw) then s1.Line? && BytesAt(v, s1.start, s1.len) == raw[..Kept(cfg, raw)] else s1 == Bad)
      && Ready(cfg, v) && Avail(v) == t && !v.ignoring
  {
    hide Scan, Find, Next, Acceptable, Ready;
    FirstOfMore(cfg, raw, t);
    assert f.pos <= f.end <= |f.buf| by {
      ReadyIs(cfg, f);
    }
    ScanStrips(cfg, f);
    ScanFinds(cfg, f, []);
    FoundIsReady(cfg, f);
    DropsFront(f.buf, f.pos, f.end, |raw|);
  }

  /**
   * The same three lines, the second of them bad: read together, nothing after the bad line is ever handed
   * out; read one by one, the third line is.
   */
  lemma CuttingMattersAfterAnError(cfg: Config, good: string, bad: string, next: string)
    requires OneLine(cfg, good) && OneLine(cfg, bad) && OneLine(cfg, next) && |good + bad + next| <= cfg.bufsize
    requires Acceptable(cfg, good) && !Acceptable(cfg, bad) && Acceptable(cfg, next)
    ensures Three(cfg, Fresh(cfg), [Chunk(good + bad + next)]) == [Got(good[..Kept(cfg, good)]), Failed, Failed]
    ensures Three(cfg, Fresh(cfg), [Chunk(good), Chunk(bad), Chunk(next)]) ==
      [Got(good[..Kept(cfg, good)]), Failed, Got(next[..Kept(cfg, next)])]
    ensures Flow([Chunk(good + bad + next)]) == Flow([Chunk(good), Chunk(bad), Chunk(next)])
  {
    hide Three, Acceptable, Kept, Flow, OneLine;
    ReadTogether(cfg, good, bad, next);
    ReadApart(cfg, good, bad, next);
    SameFlow(good, bad, next);
  }

  lemma SameFlow(a: string, b: string, c: string)
    ensures Flow([Chunk(a + b + c)]) == Flow([Chunk(a), Chunk(b), Chunk(c)])
  {
    var last, all := [Chunk(c)], [Chunk(a + b + c)];
    assert last + [] == last && all + [] == all && c + [] == c && a + b + c + [] == a + b + c;
    PrependedFlows(Chunk(a + b + c), []);
    PrependedFlows(Chunk(c), []);
    PrependedFlows(Chunk(b), last);
    PrependedFlows(Chunk(a), [Chunk(b), Chunk(c)]);
    assert [Chunk(b)] + last == [Chunk(b), Chunk(c)];
    assert [Chunk(a)] + [Chunk(b), Chunk(c)] == [Chunk(a), Chunk(b), Chunk(c)];
    Associate(a, b, c);
  }

  /** The results of three calls. */
  function Three(cfg: Config, r: Reader, child: seq<Event>): seq<Result>
    requires WellFormed(cfg, r)
  {
    var (a, r1, c1) := Get(cfg, r, child);
    var (b, r2, c2) := Get(cfg, r1, c1);
    var (c, _, _) := Get(cfg, r2, c2);
    [a, b, c]
  }

  lemma ReadTogether(cfg: Config, good: string, bad: string, next: string)
    requires OneLine(cfg, good) && OneLine(cfg, bad) && |good + bad + next| <= cfg.bufsize
    requires Acceptable(cfg, good) && !Acceptable(cfg, bad)
    ensures Three(cfg, Fresh(cfg), [Chunk(good + bad + next)]) == [Got(good[..Kept(cfg, good)]), Failed, Failed]
  {
    var r := Fresh(cfg);
    Associate(good, bad, next);
    assert [Chunk(good + bad + next)] + [] == [Chunk(good + (bad + next))];
    LineRead(cfg, r, good, bad + next, []);
    var (a, r1, c1) := Get(cfg, r, [Chunk(good + bad + next)]);
    LineBuffered(cfg, r1, bad, next, c1);
    hide Loop, Find, Acceptable, Kept, Scan;
  }

  lemma ReadApart(cfg: Config, good: string, bad: string, next: string)
    requires OneLine(cfg, good) && OneLine(cfg, bad) && OneLine(cfg, next) && |good + bad + next| <= cfg.bufsize
    requires Acceptable(cfg, good) && !Acceptable(cfg, bad) && Acceptable(cfg, next)
    ensures Three(cfg, Fresh(cfg), [Chunk(good), Chunk(bad), Chunk(next)]) ==
      [Got(good[..Kept(cfg, good)]), Failed, Got(next[..Kept(cfg, next)])]
  {
    hide Get, Find, Acceptable, Kept, NoMark;
    var r := Fresh(cfg);
    var c0, c1, c2 := [Chunk(good), Chunk(bad), Chunk(next)], [Chunk(bad), Chunk(next)], [Chunk(next)];
    assert good + [] == good && bad + [] == bad && next + [] == next;
    assert [Chunk(good + [])] + c1 == c0 && [Chunk(bad + [])] + c2 == c1 && [Chunk(next + [])] + [] == c2;
    LineRead(cfg, r, good, [], c1);
    var r1 := Get(cfg, r, c0).1;
    LineRead(cfg, r1, bad, [], c2);
    var r2 := Get(cfg, r1, c1).1;
    LineRead(cfg, r2, next, [], []);
  }

  // ----- z_stream_line_get_copy, and lossless splitting -----

  /** The line is cut to the caller's buffer; with ZRL_SPLIT the rest of it stays buffered. */
  function GetCopy(cfg: Config, r: Reader, child: seq<Event>, size: nat): (out: (Result, Reader, seq<Event>))
    requires WellFormed(cfg, r)
  {
    if size == 0 then (Again, r, child)
    else
      var (res, v, rest) := Get(cfg, r, child);
      if (res.Got? || res.Part?) && |res.line| > size then
        if !cfg.split then (Failed, v, rest)
        else (Part(res.line[..size]), Uncut(v, |res.line|, size), rest)
      else (res, v, rest)
  }

  predicate Lossless(cfg: Config) {
    cfg.split && cfg.returnEol && !cfg.truncate
  }

  predicate Usable(cfg: Config, r: Reader) {
    WellFormed(cfg, r) && !r.eof && !r.error && !r.ignoring
  }

  function Returned(res: Result): string {
    if res.Got? || res.Part? then res.line else []
  }

  /** What was returned stands in the buffer before the current position, or the whole buffer was. */
  predicate StillBuffered(cfg: Config, v: Reader, line: string) {
    && WellFormed(cfg, v)
    && if v.end == 0 then |line| <= |v.buf| && v.buf[..|line|] == line
       else v.oldpos + |line| == v.pos && v.buf[v.oldpos..v.pos] == line
  }

  /** Nothing is lost: what a call returns and what is left make up what there was. */
  predicate Keeps(cfg: Config, r: Reader, child: seq<Event>, out: (Result, Reader, seq<Event>))
    requires WellFormed(cfg, r)
  {
    var (res, v, rest) := out;
    && WellFormed(cfg, v)
    && (!res.Failed? ==>
         && Returned(res) + Pending(v, rest) == Pending(r, child)
         && !v.error && !v.ignoring
         && ((res.Got? || res.Part?) ==> StillBuffered(cfg, v, res.line)))
  }

  lemma ScanKeeps(cfg: Config, r: Reader)
    requires WellFormed(cfg, r) && !r.error && !r.ignoring && cfg.returnEol
    ensures var (v, s1) := Scan(cfg, r);
      match s1
      case Line(start, len) =>
        && BytesAt(v, start, len) + Avail(v) == Avail(r) && !v.error && !v.ignoring && v.eof == r.eof
        && v.oldpos + |BytesAt(v, start, len)| == v.pos && v.buf[v.oldpos..v.pos] == BytesAt(v, start, len)
        && v.end == r.end
      case NoLine => Avail(v) == Avail(r) && v.pos == 0 && !v.eof && !v.error && !v.ignoring
      case Bad => true
  {
    hide Find, MarkLength, BadNul;
  }

  lemma ScanKeepsMode(cfg: Config, r: Reader)
    requires WellFormed(cfg, r)
    ensures Scan(cfg, r).0.ignoring == r.ignoring
  {
    hide Find, MarkLength, BadNul;
  }

  lemma PassOverOne(cfg: Config, f: Reader)
    requires WellFormed(cfg, f) && !f.ignoring
    ensures var (v, s1) := Scan(cfg, f);
      AfterRead(cfg, f) == (v,
        match s1
        case Line(start, len) => Return(Got(BytesAt(v, start, len)))
        case Bad => Return(Failed)
        case NoLine => if cfg.singleRead then Return(Again) else Continue)
  {
    ScanKeepsMode(cfg, f);
    hide Scan, BytesAt;
  }

  /** One turn of the loop over a chunk, when nothing is being dropped. */
  lemma LoopOnChunk(cfg: Config, r: Reader, child: seq<Event>)
    requires Usable(cfg, r) && r.end < cfg.bufsize && child != [] && child[0].Chunk?
    ensures var room := cfg.bufsize - r.end;
      var f, rest := Filled(r, Taken(child, room)), Rest(child, room);
      var (v, s1) := Scan(cfg, f);
      Loop(cfg, r, child) ==
        match s1
        case Line(start, len) => (Got(BytesAt(v, start, len)), v, rest)
        case Bad => (Failed, v, rest)
        case NoLine => if cfg.singleRead then (Again, v, rest) else Loop(cfg, v, rest)
  {
    hide AfterRead, Scan, Taken, Rest, BytesAt;
    PassOverOne(cfg, Filled(r, Taken(child, cfg.bufsize - r.end)));
    hide Filled;
  }

  lemma {:induction false} ChunkKeeps(cfg: Config, r: Reader, child: seq<Event>)
    requires Usable(cfg, r) && r.pos == 0 && Lossless(cfg) && r.end < cfg.bufsize && child != [] && child[0].Chunk?
    ensures Keeps(cfg, r, child, Loop(cfg, r, child))
    decreases Size(child), 0
  {
    hide Loop, Scan, Flow, Taken, Rest, Avail, BytesAt, EndOf, Size;
    var room := cfg.bufsize - r.end;
    var f, rest := Filled(r, Taken(child, room)), Rest(child, room);
    LoopOnChunk(cfg, r, child);
    RestFlows(child, room);
    FilledBytes(cfg, r, Taken(child, room));
    Associate(Avail(r), Taken(child, room), Flow(rest));
    ScanKeeps(cfg, f);
    var (v, s1) := Scan(cfg, f);
    hide Filled;
    if s1.NoLine? && !cfg.singleRead {
      LoopKeeps(cfg, v, rest);
      hide Keeps;
      KeepsFrom(cfg, r, child, v, rest, Loop(cfg, v, rest));
    } else if s1.Line? {
      Associate(BytesAt(v, s1.start, s1.len), Avail(v), Flow(rest));
    }
  }

  lemma KeepsFrom(cfg: Config, r: Reader, child: seq<Event>, v: Reader, rest: seq<Event>, out: (Result, Reader, seq<Event>))
    requires WellFormed(cfg, r) && WellFormed(cfg, v) && Pending(r, child) == Pending(v, rest) && Keeps(cfg, v, rest, out)
    ensures Keeps(cfg, r, child, out)
  {
  }

  lemma {:induction false} LoopKeeps(cfg: Config, r: Reader, child: seq<Event>)
    requires Usable(cfg, r) && r.pos == 0 && Lossless(cfg)
    ensures Keeps(cfg, r, child, Loop(cfg, r, child))
    decreases Size(child), 1
  {
    hide Loop, Keeps;
    if r.end == cfg.bufsize {
      FullKeeps(cfg, r, child);
    } else if child != [] && child[0].Chunk? {
      ChunkKeeps(cfg, r, child);
    } else {
      QuietKeeps(cfg, r, child);
    }
  }

  lemma FilledBytes(cfg: Config, q: Reader, d: string)
    requires WellFormed(cfg, q) && q.pos == 0 && q.end + |d| <= cfg.bufsize
    ensures Avail(Filled(q, d)) == Avail(q) + d
  {
  }

  lemma FullKeeps(cfg: Config, r: Reader, child: seq<Event>)
    requires Usable(cfg, r) && r.pos == 0 && Lossless(cfg) && r.end == cfg.bufsize
    ensures Keeps(cfg, r, child, Loop(cfg, r, child))
  {
    hide Flow;
    assert Avail(r) == r.buf && Avail(Reset(r)) + Flow(child) == Flow(child);
  }

  lemma QuietKeeps(cfg: Config, r: Reader, child: seq<Event>)
    requires Usable(cfg, r) && r.pos == 0 && Lossless(cfg) && r.end < cfg.bufsize
    requires child == [] || !child[0].Chunk?
    ensures Keeps(cfg, r, child, Loop(cfg, r, child))
  {
    ScanKeeps(cfg, r.(eof := true));
    hide Scan, Find;
  }

  lemma GetKeeps(cfg: Config, r: Reader, child: seq<Event>)
    requires Usable(cfg, r) && Lossless(cfg)
    ensures Keeps(cfg, r, child, Get(cfg, r, child))
  {
    if r.end == r.pos {
      LoopKeeps(cfg, Reset(r), child);
      assert Avail(Reset(r)) == Avail(r);
      hide Keeps;
      KeepsFrom(cfg, r, child, Reset(r), child, Loop(cfg, Reset(r), child));
    } else {
      ScanKeeps(cfg, r);
      var (v, s1) := Scan(cfg, r);
      hide Scan, Loop, BytesAt;
      if s1.Line? {
        Associate(BytesAt(v, s1.start, s1.len), Avail(v), Flow(child));
      } else if s1.NoLine? {
        LoopKeeps(cfg, v, child);
        KeepsFrom(cfg, r, child, v, child, Loop(cfg, v, child));
      }
    }
  }

  /** The reader after all but `size` bytes of a line were left in it. */
  function Uncut(v: Reader, length: nat, size: nat): Reader {
    if v.end == 0 then v.(pos := size, end := length) else v.(pos := v.oldpos + size)
  }

  lemma CutKeeps(cfg: Config, r: Reader, child: seq<Event>, out: (Result, Reader, seq<Event>), size: nat)
    requires WellFormed(cfg, r) && Keeps(cfg, r, child, out)
    requires (out.0.Got? || out.0.Part?) && size < |out.0.line|
    ensures var w := Uncut(out.1, |out.0.line|, size);
      && WellFormed(cfg, w) && !w.error && !w.ignoring
      && out.0.line[..size] + Pending(w, out.2) == Pending(r, child)
  {
    CopyLeaves(cfg, out.1, out.0.line, size, Flow(out.2));
    hide Flow, Avail, StillBuffered;
  }

  /** Copying out a part of the line leaves exactly the rest of it. */
  lemma GetCopyKeeps(cfg: Config, r: Reader, child: seq<Event>, size: nat)
    requires Usable(cfg, r) && Lossless(cfg)
    ensures var (res, v, rest) := GetCopy(cfg, r, child, size);
      && WellFormed(cfg, v)
      && (!res.Failed? ==> Returned(res) + Pending(v, rest) == Pending(r, child) && !v.error && !v.ignoring)
      && |Returned(res)| <= size
  {
    if size > 0 {
      GetKeeps(cfg, r, child);
      var out := Get(cfg, r, child);
      hide Get;
      if (out.0.Got? || out.0.Part?) && |out.0.line| > size {
        CutKeeps(cfg, r, child, out, size);
      }
      hide Pending, StillBuffered, Uncut;
    }
  }

  lemma CopyLeaves(cfg: Config, v: Reader, line: string, size: nat, t: string)
    requires StillBuffered(cfg, v, line) && size < |line|
    ensures var w := Uncut(v, |line|, size);
      WellFormed(cfg, w) && line[..size] + (Avail(w) + t) == line + (Avail(v) + t)
  {
    LeftOver(cfg, v, line, size);
    hide Avail, StillBuffered, Uncut;
    Reassembled(line, size, Avail(Uncut(v, |line|, size)), Avail(v), t);
  }

  lemma Reassembled(line: string, size: nat, a: string, b: string, t: string)
    requires size <= |line| && a == line[size..] + b
    ensures line[..size] + (a + t) == line + (b + t)
  {
    calc {
      line[..size] + (a + t);
      { Associate(line[size..], b, t); }
      line[..size] + (line[size..] + (b + t));
      { Associate(line[..size], line[size..], b + t); }
      line[..size] + line[size..] + (b + t);
      { assert line[..size] + line[size..] == line; }
      line + (b + t);
    }
  }

  lemma LeftOver(cfg: Config, v: Reader, line: string, size: nat)
    requires StillBuffered(cfg, v, line) && size < |line|
    ensures WellFormed(cfg, Uncut(v, |line|, size))
    ensures Avail(Uncut(v, |line|, size)) == line[size..] + Avail(v)
  {
    if v.end == 0 {
      SplitSlice(v.buf, 0, |line|, |line|, size);
      assert v.buf[0..|line|] == v.buf[..|line|];
    } else {
      SplitSlice(v.buf, v.oldpos, v.pos, v.end, size);
    }
  }

  lemma SplitSlice(buf: string, p: nat, q: nat, e: nat, n: nat)
    requires p <= q <= e <= |buf| && n <= q - p
    ensures buf[p + n..e] == buf[p..q][n..] + buf[q..e]
  {
  }

  /** Line gets of either kind, in any order, until the end of the stream or an error. */
  datatype Call = Whole | Copy(size: nat)

  function Answer(cfg: Config, r: Reader, child: seq<Event>, call: Call): (out: (Result, Reader, seq<Event>))
    requires WellFormed(cfg, r)
  {
    if call.Whole? then Get(cfg, r, child) else GetCopy(cfg, r, child, call.size)
  }

  lemma AnswerKeeps(cfg: Config, r: Reader, child: seq<Event>, call: Call)
    requires Usable(cfg, r) && Lossless(cfg)
    ensures var (res, v, rest) := Answer(cfg, r, child, call);
      && WellFormed(cfg, v)
      && (!res.Failed? ==> Returned(res) + Pending(v, rest) == Pending(r, child) && !v.error && !v.ignoring)
  {
    if call.Whole? {
      GetKeeps(cfg, r, child);
    } else {
      GetCopyKeeps(cfg, r, child, call.size);
    }
    hide Get, GetCopy, Flow, Avail;
  }

  /** What the calls return before the first failure or up to the end of the stream, and the state then. */
  function Collect(cfg: Config, r: Reader, child: seq<Event>, calls: seq<Call>): (out: (string, Reader, seq<Event>))
    requires Usable(cfg, r) && Lossless(cfg)
    ensures WellFormed(cfg, out.1)
    decreases |calls|
  {
    if calls == [] then ([], r, child)
    else
      AnswerKeeps(cfg, r, child, calls[0]);
      var (res, v, rest) := Answer(cfg, r, child, calls[0]);
      if res.Failed? then ([], r, child)
      else if res.AtEof? || v.eof then (Returned(res), v, rest)
      else
        var (more, w, left) := Collect(cfg, v, rest, calls[1..]);
        (Returned(res) + more, w, left)
  }

  /**
   * With ZRL_SPLIT and ZRL_RETURN_EOL no byte is lost, repeated or reordered: what any calls with any
   * destination sizes return, followed by what is buffered and still to come, is what there was.
   */
  lemma {:induction false} SplittingIsLossless(cfg: Config, r: Reader, child: seq<Event>, calls: seq<Call>)
    requires Usable(cfg, r) && Lossless(cfg)
    ensures var (bytes, v, rest) := Collect(cfg, r, child, calls); bytes + Pending(v, rest) == Pending(r, child)
    decreases |calls|
  {
    if calls != [] {
      AnswerKeeps(cfg, r, child, calls[0]);
      var (res, v, rest) := Answer(cfg, r, child, calls[0]);
      hide Answer, Flow, Avail, Returned;
      if !res.Failed? && !res.AtEof? && !v.eof {
        SplittingIsLossless(cfg, v, rest, calls[1..]);
        var (more, w, left) := Collect(cfg, v, rest, calls[1..]);
        Associate(Returned(res), more, Pending(w, left));
      }
    } else {
      assert [] + Pending(r, child) == Pending(r, child);
    }
  }

  /** What any calls return, failures or not. */
  function Everything(cfg: Config, r: Reader, child: seq<Event>, calls: seq<Call>): string
    requires WellFormed(cfg, r)
    decreases |calls|
  {
    if calls == [] then []
    else
      var (res, v, rest) := Answer(cfg, r, child, calls[0]);
      Returned(res) + if WellFormed(cfg, v) then Everything(cfg, v, rest, calls[1..]) else []
  }

  lemma {:induction false} NothingAtTheEnd(cfg: Config, r: Reader, child: seq<Event>, calls: seq<Call>)
    requires WellFormed(cfg, r) && r.eof && !r.error
    ensures Everything(cfg, r, child, calls) == []
    decreases |calls|
  {
    hide Scan, Loop;
    if calls != [] {
      NothingAtTheEnd(cfg, r, child, calls[1..]);
    }
  }

  /** A last line without end mark stands in the buffer after it has been handed out. */
  lemma LastPassKeeps(cfg: Config, q: Reader)
    requires WellFormed(cfg, q) && q.pos < q.end && !q.error
    ensures var (v, pass) := AfterRead(cfg, q.(eof := true));
      pass.Return? && !v.error && (pass.result.Got? ==> StillBuffered(cfg, v, pass.result.line))
  {
    hide Find, MarkLength, BadNul;
  }

  lemma PassKeepsEof(cfg: Config, r: Reader)
    requires WellFormed(cfg, r)
    ensures AfterRead(cfg, r).0.eof == r.eof && AfterRead(cfg, r).0.error == r.error
  {
    hide Find, MarkLength, BadNul;
  }

  predicate LastLineKept(cfg: Config, out: (Result, Reader, seq<Event>)) {
    out.0.Got? && out.1.eof ==> !out.1.error && StillBuffered(cfg, out.1, out.0.line)
  }

  lemma {:induction false} LoopKeepsLastLine(cfg: Config, r: Reader, child: seq<Event>)
    requires WellFormed(cfg, r) && !r.eof && !r.error
    ensures LastLineKept(cfg, Loop(cfg, r, child))
    decreases Size(child)
  {
    hide AfterRead, StillBuffered;
    if r.end < cfg.bufsize || r.ignoring {
      var q := if r.end == cfg.bufsize then Reset(r) else r;
      if child != [] && child[0].Eof? && q.pos < q.end {
        LastPassKeeps(cfg, q);
      } else if child != [] && child[0].Chunk? {
        var f := Filled(q, Taken(child, cfg.bufsize - q.end));
        PassKeepsEof(cfg, f);
        if AfterRead(cfg, f).1.Continue? {
          LoopKeepsLastLine(cfg, AfterRead(cfg, f).0, Rest(child, cfg.bufsize - q.end));
        }
      }
    }
  }

  lemma GetKeepsLastLine(cfg: Config, r: Reader, child: seq<Event>)
    requires WellFormed(cfg, r) && !r.eof && !r.error
    ensures LastLineKept(cfg, Get(cfg, r, child))
  {
    hide Loop, StillBuffered, Find, MarkLength, BadNul;
    if r.end == r.pos {
      LoopKeepsLastLine(cfg, Reset(r), child);
    } else if Scan(cfg, r).1.NoLine? {
      LoopKeepsLastLine(cfg, Scan(cfg, r).0, child);
    }
  }

  /**
   * A last line without end mark that is longer than the destination of a copying get: with ZRL_SPLIT the rest
   * of it stays in the buffer, without it the call fails, and in both cases no later calls of any kind ever
   * return what was not copied.
   */
  lemma NothingAfterTheEnd(cfg: Config, r: Reader, child: seq<Event>, size: nat, calls: seq<Call>)
    requires WellFormed(cfg, r) && !r.eof && !r.error
    requires var out := Get(cfg, r, child); out.0.Got? && out.1.eof && 0 < size < |out.0.line|
    ensures var (res, v, rest) := GetCopy(cfg, r, child, size);
      && res == (if cfg.split then Part(Get(cfg, r, child).0.line[..size]) else Failed)
      && WellFormed(cfg, v) && (cfg.split ==> Avail(v) != []) && Everything(cfg, v, rest, calls) == []
  {
    hide Get, Flow, Everything, Avail;
    GetKeepsLastLine(cfg, r, child);
    var (line, w, _) := Get(cfg, r, child);
    var (res, v, rest) := GetCopy(cfg, r, child, size);
    LeftOver(cfg, w, line.line, size);
    NothingAtTheEnd(cfg, v, rest, calls);
  }
}
