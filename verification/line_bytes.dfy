/**
 * The lines that src/streamline.c hands out, in terms of the bytes: which lines are refused, how much of
 * the others is returned, and what becomes of those that do not fit.
 */
module LineBytes {
  import opened StreamLine

  /** A line with its end mark, which is nowhere else in it. */
  ghost predicate Complete(cfg: Config, raw: string) {
    && raw != []
    && var mark := if cfg.eol.Nul? then '\0' else '\n';
      raw[|raw| - 1] == mark && forall i :: 0 <= i < |raw| - 1 ==> raw[i] != mark
  }

  /** No end mark at all. */
  ghost predicate Unmarked(cfg: Config, s: string) {
    var mark := if cfg.eol.Nul? then '\0' else '\n';
    mark !in s
  }

  /** A NUL where that is an error, or no CR before the LF where that is one. */
  ghost predicate Refused(cfg: Config, raw: string)
    requires raw != []
  {
    || ('\0' in raw && !cfg.eol.Nul? && !cfg.nulNonfatal)
    || (cfg.eol.CrLf? && cfg.eolFatal && (|raw| < 2 || raw[|raw| - 2] != '\r'))
  }

  /** What is returned of a complete line that is not refused. */
  function Body(cfg: Config, raw: string): string
    requires raw != []
  {
    if cfg.returnEol || cfg.eol.Plain? then raw
    else if cfg.eol.CrLf? && |raw| >= 2 && raw[|raw| - 2] == '\r' then raw[..|raw| - 2]
    else raw[..|raw| - 1]
  }

  lemma CompleteIsOneLine(cfg: Config, raw: string)
    requires Complete(cfg, raw)
    ensures OneLine(cfg, raw)
  {
    FindUnique(raw, Terminator(cfg), |raw| - 1);
    hide Find;
  }

  lemma UnmarkedHasNoMark(cfg: Config, s: string)
    requires Unmarked(cfg, s)
    ensures Find(s, Terminator(cfg)) == |s|
  {
    FindUnique(s, Terminator(cfg), |s|);
    hide Find;
  }

  lemma RefusedIs(cfg: Config, raw: string)
    requires raw != []
    ensures Refused(cfg, raw) <==> !Acceptable(cfg, raw)
    ensures Acceptable(cfg, raw) ==> raw[..Kept(cfg, raw)] == Body(cfg, raw) && Strip(cfg, raw) == Some(Body(cfg, raw))
  {
    assert raw[..|raw|] == raw;
  }

  /**
   * A get on a reader that has nothing buffered, when the child delivers a complete line and perhaps more
   * behind it: it fails exactly if the line is refused, and otherwise returns its body.
   */
  lemma GetGivesBody(cfg: Config, r: Reader, raw: string, t: string, child: seq<Event>)
    requires Idle(cfg, r) && Complete(cfg, raw) && |raw + t| <= cfg.bufsize
    ensures Get(cfg, r, [Chunk(raw + t)] + child).0 == if Refused(cfg, raw) then Failed else Got(Body(cfg, raw))
  {
    CompleteIsOneLine(cfg, raw);
    RefusedIs(cfg, raw);
    hide Get, Acceptable, OneLine, Idle, Complete, Refused;
    LineRead(cfg, r, raw, t, child);
  }

  /** The same for a line that is in the buffer already; then the error is stored. */
  lemma BufferedGivesBody(cfg: Config, r: Reader, raw: string, t: string, child: seq<Event>)
    requires Ready(cfg, r) && !r.ignoring && Avail(r) == raw + t && Complete(cfg, raw)
    ensures var (res, v, rest) := Get(cfg, r, child);
      res == (if Refused(cfg, raw) then Failed else Got(Body(cfg, raw))) && v.error == Refused(cfg, raw)
  {
    CompleteIsOneLine(cfg, raw);
    RefusedIs(cfg, raw);
    hide Get, Acceptable, OneLine, Complete, Refused, Ready;
    LineBuffered(cfg, r, raw, t, child);
  }

  /** What becomes of buffered bytes without an end mark. */
  function AtTheEnd(cfg: Config, r: Reader): Result
    requires r.pos <= r.end <= |r.buf|
  {
    if Avail(r) == [] then AtEof
    else if '\0' in Avail(r) && !cfg.eol.Nul? && !cfg.nulNonfatal then Failed
    else Got(if r.ignoring then [] else Avail(r))
  }

  /**
   * While no complete line is buffered: if the child has nothing to say now, the call returns and keeps what it
   * has; if the child fails, so does the call, and the error is stored; and at the end of the stream what is
   * buffered is the last line.
   */
  lemma GetWithoutBytes(cfg: Config, r: Reader, e: Event, child: seq<Event>)
    requires Ready(cfg, r) && Unmarked(cfg, Avail(r)) && |Avail(r)| < cfg.bufsize && !e.Chunk?
    ensures var (res, v, rest) := Get(cfg, r, [e] + child);
      match e
      case Wait => res == Again && rest == child && Avail(v) == Avail(r) && !v.error && !v.eof
      case Fail => res == Failed && rest == child && v.error
      case Eof => res == AtTheEnd(cfg, r) && (v.eof <==> Avail(r) != [])
  {
    UnmarkedHasNoMark(cfg, Avail(r));
    var events := [e] + child;
    assert events[1..] == child;
    var q := if r.pos == r.end then Reset(r) else Scan(cfg, r).0;
    ScanFindsNothing(cfg, r);
    assert Partial(cfg, q) && Avail(q) == Avail(r) && q.end == |Avail(r)|;
    assert Get(cfg, r, events) == Loop(cfg, q, events);
    hide Get, Scan, Find, Ready;
    if e.Eof? && Avail(r) != [] {
      EofPass(cfg, q);
    }
    hide AfterRead;
  }

  // ----- all calls together -----

  /** The first of the lines, whether or not it is to be dropped as the tail of one that was cut. */
  lemma FirstLine(cfg: Config, raw: string, t: string, dropping: bool, ending: Ending)
    requires Complete(cfg, raw) && |raw| <= cfg.bufsize
    ensures Lines(cfg, dropping, raw + t, ending) ==
      if Refused(cfg, raw) then [ErrorOut]
      else (if dropping then [] else [LineOut(Body(cfg, raw))]) + Lines(cfg, false, t, ending)
  {
    CompleteIsOneLine(cfg, raw);
    RefusedIs(cfg, raw);
    FirstOfMore(cfg, raw, t);
    hide Strip, Find, Body, Refused, Acceptable, Complete;
    if dropping && Strip(cfg, raw).Some? {
      assert Next(cfg, true, raw + t) == Next(cfg, false, t);
      LinesByNext(cfg, true, raw + t, false, t, ending);
    }
  }

  /** As many bytes as the buffer has, and no end mark in them. */
  lemma FullBuffer(cfg: Config, s: string, dropping: bool, ending: Ending)
    requires 0 < cfg.bufsize <= |s| && Unmarked(cfg, s[..cfg.bufsize])
    ensures var n := cfg.bufsize;
      Lines(cfg, dropping, s, ending) ==
        if dropping then Lines(cfg, true, s[n..], ending)
        else if cfg.truncate then [LineOut(s[..n])] + Lines(cfg, true, s[n..], ending)
        else if cfg.split then [PieceOut(s[..n])] + Lines(cfg, false, s[n..], ending)
        else [ErrorOut]
  {
    var n := cfg.bufsize;
    UnmarkedHasNoMark(cfg, s[..n]);
    FullIsNext(cfg, dropping, s[..n], s[n..]);
    assert s[..n] + s[n..] == s;
    if dropping {
      LinesByNext(cfg, true, s, true, s[n..], ending);
    }
    hide Next, Find;
  }

  /** The last bytes, without an end mark. */
  lemma LastBytes(cfg: Config, s: string, dropping: bool, ending: Ending)
    requires |s| < cfg.bufsize && Unmarked(cfg, s)
    ensures Lines(cfg, dropping, s, ending) ==
      match ending
      case Open => []
      case Broke => [ErrorOut]
      case Ended =>
        if s == [] then [EndOut]
        else if '\0' in s && !cfg.eol.Nul? && !cfg.nulNonfatal then [ErrorOut]
        else [LineOut(if dropping then [] else s), EndOut]
  {
    UnmarkedHasNoMark(cfg, s);
    ShortIsNeed(cfg, dropping, s);
    hide Next, Find;
  }

  /** Whatever pieces the child delivers the bytes in: what calls on a new reader return begins with the first line. */
  lemma AnyPieces(cfg: Config, child: seq<Event>, raw: string, t: string)
    requires Complete(cfg, raw) && |raw| <= cfg.bufsize && Flow(child) == raw + t
    ensures Drive(cfg, Fresh(cfg), child) ==
      if Refused(cfg, raw) then [ErrorOut] else [LineOut(Body(cfg, raw))] + Lines(cfg, false, t, EndOf(child))
  {
    assert 0 < |raw|;
    hide *;
    ChunkingDoesNotMatter(cfg, child, child);
    FirstLine(cfg, raw, t, false, EndOf(child));
  }

  // ----- z_stream_line_get_copy -----

  /** After such a get the line stands in the buffer before the current position. */
  lemma WhereItStands(cfg: Config, r: Reader, raw: string, t: string, child: seq<Event>)
    requires Idle(cfg, r) && OneLine(cfg, raw) && |raw + t| <= cfg.bufsize
    ensures var (_, v, rest) := Get(cfg, r, [Chunk(raw + t)] + child);
      && WellFormed(cfg, v) && rest == child
      && v.oldpos + |raw| == v.pos && 0 < v.end && v.buf[v.oldpos..v.end] == raw + t
  {
    var q, events := Reset(r), [Chunk(raw + t)] + child;
    assert events[1..] == child;
    FilledHolds(cfg, q, raw + t);
    var f := Filled(q, raw + t);
    assert Avail(q) + (raw + t) == raw + t;
    FirstOfMore(cfg, raw, t);
    ScanShape(cfg, f);
    PassOverOne(cfg, f);
    hide AfterRead, Scan, Find, Ready, Filled, Acceptable, Kept;
  }

  lemma CutStays(v: Reader, raw: string, t: string, size: nat, length: nat)
    requires v.oldpos + |raw| == v.pos <= v.end <= |v.buf| && 0 < v.end && v.buf[v.oldpos..v.end] == raw + t
    requires size < |raw|
    ensures var w := Uncut(v, length, size); w.oldpos <= w.pos <= w.end <= |w.buf| && Avail(w) == raw[size..] + t
    ensures Avail(v) == t && Uncut(v, length, size).buf == v.buf
  {
    var all := raw + t;
    DropsFront(v.buf, v.oldpos, v.end, size);
    DropsFront(v.buf, v.oldpos, v.end, |raw|);
    assert all[size..] == raw[size..] + t && all[|raw|..] == t;
  }

  /**
   * A copying get of a line that the child delivers: one that is refused is an error; what fits the caller's buffer is returned whole; more is
   * an error without ZRL_SPLIT, and with it as much as fits is returned, and the rest of the line stays.
   * Without room nothing happens.
   */
  lemma GetCopyGives(cfg: Config, r: Reader, raw: string, t: string, child: seq<Event>, size: nat)
    requires Idle(cfg, r) && Complete(cfg, raw) && |raw + t| <= cfg.bufsize
    ensures var (res, v, rest) := GetCopy(cfg, r, [Chunk(raw + t)] + child, size);
      && WellFormed(cfg, v)
      && (size == 0 ==> res == Again && v == r && rest == [Chunk(raw + t)] + child)
      && (size != 0 ==>
           && rest == child
           && (if Refused(cfg, raw) then res == Failed
               else if |Body(cfg, raw)| <= size then res == Got(Body(cfg, raw)) && Avail(v) == t
               else if !cfg.split then res == Failed
               else res == Part(Body(cfg, raw)[..size]) && Avail(v) == raw[size..] + t))
  {
    assert WellFormed(cfg, r);
    assert |Body(cfg, raw)| <= |raw|;
    hide Refused, Complete, Get, Body, OneLine, Idle, Uncut, Avail, Ready;
    CompleteIsOneLine(cfg, raw);
    GetGivesBody(cfg, r, raw, t, child);
    WhereItStands(cfg, r, raw, t, child);
    var v := Get(cfg, r, [Chunk(raw + t)] + child).1;
    CutStays(v, raw, t, if size < |raw| then size else 0, |Body(cfg, raw)|);
  }
}
