/** The line reader of src/streamline.c on its buffer: the C functions as methods. */
module LineReader {
  import opened StreamLine

  lemma MovedAt(r: Reader, i: nat)
    requires r.pos <= r.end <= |r.buf| && i < |r.buf|
    ensures |MovedToFront(r).buf| == |r.buf|
    ensures MovedToFront(r).buf[i] == if i < r.end - r.pos then r.buf[r.pos + i] else r.buf[i]
  {}

  lemma Sliced(s: string, i: nat, j: nat, n: nat)
    requires i + n <= j <= |s|
    ensures s[i..j][..n] == s[i..i + n]
  {}

  class ZStreamLine {
    const cfg: Config
    const buffer: array<char>
    var pos: nat
    var end: nat
    var oldpos: nat
    var ignoring: bool
    var eof: bool
    var error: bool

    ghost function State(): Reader
      reads this, buffer
    {
      Reader(buffer[..], pos, end, oldpos, ignoring, eof, error)
    }

    ghost predicate Valid()
      reads this, buffer
    {
      WellFormed(cfg, State())
    }

    constructor (cfg: Config)
      requires 0 < cfg.bufsize
      ensures this.cfg == cfg && Valid() && State() == Fresh(cfg) && fresh(buffer)
    {
      this.cfg := cfg;
      buffer := new char[cfg.bufsize](_ => NUL);
      pos, end, oldpos := 0, 0, 0;
      ignoring, eof, error := false, false, false;
      new;
      assert buffer[..] == Fresh(cfg).buf;
    }

    /** memchr on the buffered bytes: how far the first `c` is from `pos`. */
    method Memchr(c: char) returns (k: nat)
      requires Valid()
      ensures k == Find(Avail(State()), c)
    {
      ghost var avail := Avail(State());
      k := 0;
      while pos + k < end && buffer[pos + k] != c
        invariant pos + k <= end
        invariant forall j :: 0 <= j < k ==> avail[j] != c
      {
        assert avail[k] == buffer[pos + k];
        k := k + 1;
      }
      if pos + k < end {
        assert avail[k] == buffer[pos + k];
      }
      FindUnique(avail, c, k);
    }

    /** memmove of the buffered bytes to the front of the buffer. */
    method MoveToFront()
      requires Valid()
      modifies this`pos, this`end, this`oldpos, buffer
      ensures State() == MovedToFront(old(State()))
    {
      ghost var before := State();
      var avail := end - pos;
      forall i | 0 <= i < avail {
        buffer[i] := buffer[pos + i];
      }
      end := avail;
      pos := 0;
      oldpos := 0;
      ghost var moved := MovedToFront(before).buf;
      hide MovedToFront;
      forall i | 0 <= i < buffer.Length
        ensures buffer[i] == moved[i]
      {
        MovedAt(before, i);
      }
      assert buffer[..] == moved;
    }

    /** The next `length` bytes are taken from the buffer; is there a NUL in them where that is an error? */
    method Cut(length: nat) returns (bad: bool)
      requires Valid() && pos + length <= end
      modifies this`pos, this`oldpos
      ensures Valid() && State() == old(State()).(oldpos := old(pos), pos := old(pos) + length)
      ensures bad <==> BadNul(cfg, old(Avail(State()))[..length])
    {
      Sliced(buffer[..], pos, end, length);
      oldpos := pos;
      pos := pos + length;
      bad := false;
      if !cfg.eol.Nul? {
        if NUL in buffer[oldpos..pos] {
          bad := !cfg.nulNonfatal;
        }
      }
      assert buffer[oldpos..pos] == buffer[..][oldpos..pos];
    }

    /** z_stream_line_get_from_buf. */
    method GetFromBuf() returns (line: Scanned)
      requires Valid()
      modifies this`pos, this`end, this`oldpos, buffer
      ensures (State(), line) == Scan(cfg, old(State()))
      ensures Valid()
    {
      hide Terminator, Find, BadNul, MarkLength, MovedToFront;
      var avail := end - pos;
      var k := Memchr(Terminator(cfg));
      var found := k < avail;
      var length := k + 1;
      if eof {
        found := true;
        length := avail;
      }
      if found {
        var start := pos;
        var bad := Cut(length);
        if bad {
          return Bad;
        }
        if eof {
          return Line(start, length);
        }
        var mark := MarkLength(cfg, buffer[..], start + k);
        if mark < 0 {
          return Bad;
        }
        return Line(start, if cfg.returnEol then length else length - mark);
      }
      if pos > 0 {
        MoveToFront();
      }
      return NoLine;
    }

    /** The bytes a line consists of. */
    method LineAt(start: nat, len: int) returns (line: string)
      ensures line == BytesAt(State(), start, len)
    {
      line := if 0 <= len && start + len <= buffer.Length then buffer[start..start + len] else "";
    }

    /** z_stream_line_get_internal, with what the child does as a list of events. */
    method GetInternal(events: seq<Event>) returns (result: Result, child: seq<Event>)
      requires Valid()
      modifies this, buffer
      ensures (result, State(), child) == Get(cfg, old(State()), events)
      ensures Valid()
    {
      child := events;
      if error {
        return Failed, child;
      }
      if eof {
        return AtEof, child;
      }
      if end != pos {
        var s := GetFromBuf();
        match s {
          case Line(start, len) =>
            var line := LineAt(start, len);
            return Got(line), child;
          case Bad =>
            error := true;
            return Failed, child;
          case NoLine =>
        }
      } else {
        pos, end, oldpos := 0, 0, 0;
      }
      result, child := ReadLoop(child);
    }

    /** A full buffer without a line: dropped, handed out as it is, or an error. */
    method MakeRoom() returns (pass: Pass)
      requires Valid()
      modifies this
      ensures Valid() && buffer[..] == old(buffer[..])
      ensures var r := old(State());
        if r.end != cfg.bufsize then State() == r && pass == Continue
        else if r.ignoring then State() == Reset(r) && pass == Continue
        else if cfg.truncate then State() == Reset(r).(ignoring := true) && pass == Return(Got(r.buf))
        else if cfg.split then State() == Reset(r) && pass == Return(Part(r.buf))
        else State() == r.(error := true) && pass == Return(Failed)
    {
      if end != cfg.bufsize {
        return Continue;
      }
      if ignoring {
        pos, end, oldpos := 0, 0, 0;
        return Continue;
      } else if cfg.truncate {
        pos, end, oldpos := 0, 0, 0;
        ignoring := true;
        return Return(Got(buffer[..]));
      } else if cfg.split {
        pos, end, oldpos := 0, 0, 0;
        return Return(Part(buffer[..]));
      } else {
        error := true;
        return Return(Failed);
      }
    }

    /** The while loop of z_stream_line_get_internal. */
    method ReadLoop(events: seq<Event>) returns (result: Result, child: seq<Event>)
      requires Valid()
      modifies this, buffer
      ensures (result, State(), child) == Loop(cfg, old(State()), events)
      ensures Valid()
    {
      child := events;
      while true
        invariant Valid()
        invariant Loop(cfg, State(), child) == Loop(cfg, old(State()), events)
        decreases Size(child)
      {
        hide Loop, Size;
        var pass;
        pass, child := LoopBody(child);
        if pass.Return? {
          return pass.result, child;
        }
      }
    }

    /** The body of that loop. */
    method LoopBody(child: seq<Event>) returns (pass: Pass, rest: seq<Event>)
      requires Valid()
      modifies this, buffer
      ensures Valid()
      ensures if pass.Return? then (pass.result, State(), rest) == Loop(cfg, old(State()), child)
        else Size(rest) < Size(child) && Loop(cfg, State(), rest) == Loop(cfg, old(State()), child)
    {
      hide AfterRead, Filled, Taken, Rest, BytesAt, Size;
      var full := MakeRoom();
      if full.Return? {
        return full, child;
      }
      if child == [] {
        return Return(Again), child;
      }
      match child[0] {
        case Wait =>
          return Return(Again), child[1..];
        case Fail =>
          error := true;
          return Return(Failed), child[1..];
        case Eof =>
          if eof || pos == end {
            return Return(AtEof), child;
          }
          eof := true;
          pass := TakeLine();
          return if pass.Return? then pass else Return(Again), child;
        case Chunk(_) =>
          pass, rest := ReadChunk(child);
      }
    }

    /** One read that yields bytes, and what follows it. */
    method ReadChunk(child: seq<Event>) returns (pass: Pass, rest: seq<Event>)
      requires Valid() && end < cfg.bufsize && child != [] && child[0].Chunk?
      modifies this, buffer
      ensures (State(), pass) == AfterRead(cfg, Filled(old(State()), Taken(child, cfg.bufsize - old(end))))
      ensures Valid() && rest == Rest(child, cfg.bufsize - old(end))
    {
      hide AfterRead, Filled, Taken, Rest, Size;
      var avail := cfg.bufsize - end;
      ReadInto(child);
      pass := TakeLine();
      rest := Rest(child, avail);
    }

    /** z_stream_read on the child: its bytes go behind the buffered ones. */
    method ReadInto(child: seq<Event>)
      requires Valid() && child != [] && child[0].Chunk?
      modifies this`end, buffer
      ensures State() == Filled(old(State()), Taken(child, cfg.bufsize - old(end)))
      ensures Valid()
    {
      ghost var before := State();
      var d := Taken(child, cfg.bufsize - end);
      forall i | 0 <= i < |d| {
        buffer[end + i] := d[i];
      }
      end := end + |d|;
      assert buffer[..] == Filled(before, d).buf;
    }

    /** What follows a read: hand out a line, drop a tail and look again, or go on reading. */
    method TakeLine() returns (pass: Pass)
      requires Valid()
      modifies this, buffer
      ensures (State(), pass) == AfterRead(cfg, old(State()))
      ensures Valid()
    {
      var s := GetFromBuf();
      if s.Line? && ignoring {
        ignoring := false;
        s := GetFromBuf();
      }
      match s {
        case Line(start, len) =>
          var line := LineAt(start, len);
          return Return(Got(line));
        case NoLine =>
          return if cfg.singleRead then Return(Again) else Continue;
        case Bad =>
          return Return(Failed);
      }
    }

    /** The caller takes the first `size` bytes of a line of `length`; the others stay to be read. */
    method LeaveRest(length: nat, size: nat)
      modifies this`pos, this`end
      ensures State() == Uncut(old(State()), length, size)
    {
      if end == 0 {
        pos := size;
        end := length;
      } else {
        pos := oldpos + size;
      }
    }

    /** z_stream_line_get_copy into a buffer of `size` bytes. */
    method GetCopyInto(size: nat, events: seq<Event>) returns (result: Result, child: seq<Event>)
      requires Valid()
      modifies this, buffer
      ensures (result, State(), child) == GetCopy(cfg, old(State()), events, size)
    {
      hide Get, State, Uncut, WellFormed, Valid;
      if size == 0 {
        return Again, events;
      }
      result, child := GetInternal(events);
      if result.Got? || result.Part? {
        if |result.line| > size {
          if cfg.split {
            LeaveRest(|result.line|, size);
            result := Part(result.line[..size]);
          } else {
            result := Failed;
          }
        }
      }
    }
  }
}
