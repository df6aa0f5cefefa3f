/**
 * The write buffer of src/streambuf.c: packets wait in a list and are written to the child stream as it
 * takes them.
 */
module StreamBuf {
  import opened Arithmetic
  import opened Sequences

  /** What the child makes of one write: some of the bytes, "try again", or an error. */
  datatype Write = Takes(count: nat) | Busy | Breaks

  datatype Buffer = Buffer(packets: seq<seq<int>>, pendingPos: nat, currentSize: int, flushError: bool)

  const FLUSH_WRITES := 10

  /** The position lies inside the first packet, at its end only if it is empty. */
  predicate WellPlaced(b: Buffer) {
    if b.packets == [] then b.pendingPos == 0
    else b.pendingPos < |b.packets[0]| || b.pendingPos == |b.packets[0]| == 0
  }

  /** One successful write of the first packet: up to `count` bytes go to the child. */
  function Sent(b: Buffer, count: nat): (r: (Buffer, seq<int>))
    requires b.packets != [] && WellPlaced(b)
    ensures WellPlaced(r.0)
  {
    var packet := b.packets[0];
    var pos := b.pendingPos + Min(count, |packet| - b.pendingPos);
    var bytes := packet[b.pendingPos..pos];
    if pos >= |packet| then
      (b.(packets := b.packets[1..], pendingPos := 0, currentSize := b.currentSize - |packet|), bytes)
    else (b.(pendingPos := pos), bytes)
  }

  /** z_stream_buf_flush_internal with `i` writes left: the buffer, what the child got, and the child after it. */
  function Flush(b: Buffer, i: nat, child: seq<Write>): (r: (Buffer, seq<int>, seq<Write>))
    requires WellPlaced(b)
    ensures WellPlaced(r.0)
    decreases i
  {
    if b.packets == [] || i == 0 then (b, [], child)
    else if child == [] then (b, [], [])
    else
      match child[0]
      case Busy => (b, [], child[1..])
      case Breaks => (b.(flushError := true), [], child[1..])
      case Takes(count) =>
        var (b1, bytes) := Sent(b, count);
        var (b2, more, rest) := Flush(b1, i - 1, child[1..]);
        (b2, bytes + more, rest)
  }

  /** The locked part of z_stream_write_packet_internal: is the packet accepted? */
  function Accept(b: Buffer, packet: seq<int>): (r: (Buffer, bool))
    requires WellPlaced(b)
    ensures WellPlaced(r.0)
  {
    if b.flushError then (b, false)
    else (b.(packets := b.packets + [packet], currentSize := b.currentSize + |packet|), true)
  }

  /** The condition that z_stream_buf_watch_prepare sets on the child for output. */
  predicate WantsOutput(b: Buffer) {
    b.currentSize != 0 && !b.flushError
  }

  // ----- what a buffer holds -----

  function Joined(packets: seq<seq<int>>): seq<int> {
    if packets == [] then [] else packets[0] + Joined(packets[1..])
  }

  function Total(packets: seq<seq<int>>): nat {
    if packets == [] then 0 else |packets[0]| + Total(packets[1..])
  }

  /** The bytes that were accepted and the child has not got. */
  function Undelivered(b: Buffer): seq<int>
    requires WellPlaced(b)
  {
    if b.packets == [] then [] else b.packets[0][b.pendingPos..] + Joined(b.packets[1..])
  }

  ghost predicate Inv(b: Buffer) {
    WellPlaced(b) && b.currentSize == Total(b.packets)
  }

  lemma UndeliveredFromStart(b: Buffer)
    requires WellPlaced(b) && b.pendingPos == 0
    ensures Undelivered(b) == Joined(b.packets)
  {}

  lemma SentKeeps(b: Buffer, count: nat)
    requires Inv(b) && b.packets != []
    ensures var (b1, bytes) := Sent(b, count);
      Inv(b1) && b1.flushError == b.flushError && bytes + Undelivered(b1) == Undelivered(b)
  {
    var (b1, bytes) := Sent(b, count);
    var packet := b.packets[0];
    var pos := b.pendingPos + |bytes|;
    assert Inv(b1) && b1.flushError == b.flushError;
    assert bytes == packet[b.pendingPos..pos];
    if pos >= |packet| {
      assert b1.packets == b.packets[1..] && b1.pendingPos == 0 && bytes == packet[b.pendingPos..];
      hide *;
      WholeSent(b, b1);
    } else {
      assert b1.packets == b.packets && b1.pendingPos == pos;
      hide *;
      PartSent(b, b1, pos);
    }
  }

  lemma WholeSent(b: Buffer, b1: Buffer)
    requires WellPlaced(b) && WellPlaced(b1) && b.packets != []
    requires b1.packets == b.packets[1..] && b1.pendingPos == 0
    ensures b.packets[0][b.pendingPos..] + Undelivered(b1) == Undelivered(b)
  {
    UndeliveredFromStart(b1);
    hide Joined;
  }

  lemma PartSent(b: Buffer, b1: Buffer, pos: nat)
    requires WellPlaced(b) && WellPlaced(b1) && b.packets != [] && b.pendingPos <= pos <= |b.packets[0]|
    requires b1.packets == b.packets && b1.pendingPos == pos
    ensures b.packets[0][b.pendingPos..pos] + Undelivered(b1) == Undelivered(b)
  {
    var packet, rest := b.packets[0], Joined(b.packets[1..]);
    assert Undelivered(b) == packet[b.pendingPos..] + rest && Undelivered(b1) == packet[pos..] + rest;
    hide *;
    SplitAt(packet, b.pendingPos, pos);
    Associate(packet[b.pendingPos..pos], packet[pos..], rest);
  }

  lemma SplitAt(s: seq<int>, i: nat, k: nat)
    requires i <= k <= |s|
    ensures s[i..] == s[i..k] + s[k..]
  {}

  /** Flushing moves bytes from the front of the buffer to the child, in order, and loses none. */
  lemma {:induction false} FlushKeeps(b: Buffer, i: nat, child: seq<Write>)
    requires Inv(b)
    ensures var (b1, bytes, _) := Flush(b, i, child);
      && Inv(b1) && bytes + Undelivered(b1) == Undelivered(b)
      && (b.flushError ==> b1.flushError)
    decreases i
  {
    if b.packets == [] || i == 0 || child == [] || !child[0].Takes? {
      assert [] + Undelivered(b) == Undelivered(b);
    } else {
      hide Undelivered, Total, Sent, Joined, WellPlaced;
      var (b1, bytes) := Sent(b, child[0].count);
      SentKeeps(b, child[0].count);
      FlushKeeps(b1, i - 1, child[1..]);
      var (b2, more, _) := Flush(b1, i - 1, child[1..]);
      Associate(bytes, more, Undelivered(b2));
    }
  }

  lemma {:induction false} JoinedAdds(packets: seq<seq<int>>, packet: seq<int>)
    ensures Joined(packets + [packet]) == Joined(packets) + packet
    ensures Total(packets + [packet]) == Total(packets) + |packet|
  {
    if packets == [] {
      assert packets + [packet] == [packet];
      assert [packet][1..] == [] && packet + [] == packet && [] + packet == packet;
    } else {
      assert (packets + [packet])[1..] == packets[1..] + [packet];
      JoinedAdds(packets[1..], packet);
      assert packets[0] + (Joined(packets[1..]) + packet) == packets[0] + Joined(packets[1..]) + packet;
    }
  }

  lemma AcceptKeeps(b: Buffer, packet: seq<int>)
    requires Inv(b)
    ensures var (b1, accepted) := Accept(b, packet);
      && Inv(b1) && accepted == !b.flushError && b1.flushError == b.flushError
      && Undelivered(b1) == if accepted then Undelivered(b) + packet else Undelivered(b)
  {
    if !b.flushError {
      JoinedAdds(b.packets, packet);
      var b1 := Accept(b, packet).0;
      if b.packets == [] {
        assert b.packets + [packet] == [packet];
        assert packet[0..] == packet && [packet][1..] == [];
        assert packet + [] == packet && [] + packet == packet;
      } else {
        assert b1.packets[1..] == b.packets[1..] + [packet];
        JoinedAdds(b.packets[1..], packet);
        var first := b.packets[0][b.pendingPos..];
        assert first + (Joined(b.packets[1..]) + packet) == first + Joined(b.packets[1..]) + packet;
      }
    }
  }

  /** There is something to write exactly if the size says so. */
  lemma SizeTellsWork(b: Buffer)
    requires Inv(b)
    ensures b.currentSize > 0 <==> Undelivered(b) != []
  {
    if b.packets != [] {
      TotalIsLength(b.packets[1..]);
    }
  }

  lemma {:induction false} TotalIsLength(packets: seq<seq<int>>)
    ensures Total(packets) == |Joined(packets)|
  {
    if packets != [] {
      TotalIsLength(packets[1..]);
    }
  }

  // ----- runs -----

  datatype Step =
    | WritePacket(packet: seq<int>)
    | FlushNow(child: seq<Write>)   // with what the child will do at its next writes

  /** A buffer with what was accepted and what the child got so far. */
  datatype World = World(buffer: Buffer, accepted: seq<int>, delivered: seq<int>)

  const Empty := World(Buffer([], 0, 0, false), [], [])

  function Apply(w: World, step: Step): World
    requires WellPlaced(w.buffer)
  {
    match step
    case WritePacket(packet) =>
      var (b, ok) := Accept(w.buffer, packet);
      World(b, if ok then w.accepted + packet else w.accepted, w.delivered)
    case FlushNow(child) =>
      var (b, bytes, _) := Flush(w.buffer, FLUSH_WRITES, child);
      World(b, w.accepted, w.delivered + bytes)
  }

  function After(w: World, steps: seq<Step>): World
    requires WellPlaced(w.buffer)
    decreases |steps|
  {
    if steps == [] then w else After(Apply(w, steps[0]), steps[1..])
  }

  /** Nothing is lost, repeated or reordered. */
  ghost predicate Conserved(w: World) {
    Inv(w.buffer) && w.delivered + Undelivered(w.buffer) == w.accepted
  }

  lemma StepConserves(w: World, step: Step)
    requires Conserved(w)
    ensures Conserved(Apply(w, step)) && (w.buffer.flushError ==> Apply(w, step).buffer.flushError)
  {
    hide Undelivered, Total;
    match step {
      case WritePacket(packet) =>
        AcceptKeeps(w.buffer, packet);
        assert w.delivered + (Undelivered(w.buffer) + packet) == w.accepted + packet;
      case FlushNow(child) =>
        FlushKeeps(w.buffer, FLUSH_WRITES, child);
        var (b, bytes, _) := Flush(w.buffer, FLUSH_WRITES, child);
        assert w.delivered + (bytes + Undelivered(b)) == w.delivered + bytes + Undelivered(b);
    }
  }

  lemma {:induction false} RunConserves(w: World, steps: seq<Step>)
    requires Conserved(w)
    ensures Conserved(After(w, steps))
    decreases |steps|
  {
    assert WellPlaced(w.buffer);
    hide Conserved, Apply;
    if steps != [] {
      StepConserves(w, steps[0]);
      RunConserves(Apply(w, steps[0]), steps[1..]);
    }
  }

  /**
   * After any writes and flushes, whatever the child does: what it got followed by what waits is what was
   * accepted; the size is that of the packets that wait; and output is wanted exactly if bytes wait and
   * no error is stored.
   */
  lemma WritesAreConserved(steps: seq<Step>)
    ensures var w := After(Empty, steps);
      && WellPlaced(w.buffer)
      && w.delivered + Undelivered(w.buffer) == w.accepted
      && w.buffer.currentSize == Total(w.buffer.packets)
      && (WantsOutput(w.buffer) <==> Undelivered(w.buffer) != [] && !w.buffer.flushError)
  {
    assert Conserved(Empty);
    RunConserves(Empty, steps);
    SizeTellsWork(After(Empty, steps).buffer);
    hide After, Undelivered;
  }

  /** The bytes that wait in the first `m` packets. */
  function Front(b: Buffer, m: nat): seq<int>
    requires WellPlaced(b) && m <= |b.packets|
  {
    if m == 0 then [] else b.packets[0][b.pendingPos..] + Joined(b.packets[1..m])
  }

  /** The write takes as much as any packet has. */
  ghost predicate TakesAny(write: Write, packets: seq<seq<int>>) {
    write.Takes? && forall j :: 0 <= j < |packets| ==> |packets[j]| <= write.count
  }

  ghost predicate Willing(child: seq<Write>, packets: seq<seq<int>>) {
    forall k :: 0 <= k < |child| ==> TakesAny(child[k], packets)
  }

  /** The child takes whole packets: `i` writes move that many packets, or all there are, and no others. */
  lemma {:induction false} WillingChildGetsPackets(b: Buffer, i: nat, child: seq<Write>)
    requires WellPlaced(b) && |child| >= i && Willing(child, b.packets)
    ensures var (b1, bytes, _) := Flush(b, i, child);
      var m := if i < |b.packets| then i else |b.packets|;
      b1.packets == b.packets[m..] && bytes == Front(b, m)
    decreases i
  {
    var m := if i < |b.packets| then i else |b.packets|;
    if m > 0 {
      assert TakesAny(child[0], b.packets);
      FirstIsSent(b, child[0]);
      var (b1, sent) := Sent(b, child[0].count);
      StillWilling(child, b.packets);
      hide Sent, Willing, Front, WellPlaced, TakesAny;
      WillingChildGetsPackets(b1, i - 1, child[1..]);
      assert b.packets[1..][m - 1..] == b.packets[m..];
      FrontFrom(b, b1, m);
    } else {
      assert Flush(b, i, child).1 == [] && b.packets[0..] == b.packets;
    }
  }

  lemma FirstIsSent(b: Buffer, write: Write)
    requires WellPlaced(b) && b.packets != [] && TakesAny(write, b.packets)
    ensures var (b1, sent) := Sent(b, write.count);
      b1.packets == b.packets[1..] && b1.pendingPos == 0 && sent == b.packets[0][b.pendingPos..]
  {}

  lemma StillWilling(child: seq<Write>, packets: seq<seq<int>>)
    requires Willing(child, packets) && child != [] && packets != []
    ensures Willing(child[1..], packets[1..])
  {
    forall k | 0 <= k < |child| - 1
      ensures TakesAny(child[1..][k], packets[1..])
    {
      assert TakesAny(child[k + 1], packets);
      assert forall j :: 0 <= j < |packets| - 1 ==> packets[1..][j] == packets[j + 1];
    }
  }

  lemma FrontFrom(b: Buffer, b1: Buffer, m: nat)
    requires WellPlaced(b) && WellPlaced(b1) && 0 < m <= |b.packets| && b1.packets == b.packets[1..] && b1.pendingPos == 0
    ensures Front(b, m) == b.packets[0][b.pendingPos..] + Front(b1, m - 1)
  {
    var packets := b.packets[1..m];
    if m > 1 {
      assert packets[0] == b1.packets[0] == b1.packets[0][0..];
      assert packets[1..] == b1.packets[1..m - 1];
    }
  }

  /**
   * A flush makes at most `i` writes, and fewer only if nothing is left to be written, the last was not
   * accepted, or the child has no more to say; what is an error is remembered.
   */
  lemma {:induction false} FlushCounts(b: Buffer, i: nat, child: seq<Write>)
    requires WellPlaced(b)
    ensures var (b1, _, rest) := Flush(b, i, child);
      var n := |child| - |rest|;
      && 0 <= n <= i && rest == child[n..]
      && (forall k :: 0 <= k < n - 1 ==> child[k].Takes?)
      && (n < i ==> b1.packets == [] || n == |child| || (n > 0 && !child[n - 1].Takes?))
      && (b1.flushError <==> b.flushError || (n > 0 && child[n - 1].Breaks?))
    decreases i
  {
    if b.packets != [] && i > 0 && child != [] && child[0].Takes? {
      hide Sent, WellPlaced;
      var b1 := Sent(b, child[0].count).0;
      SentKeepsError(b, child[0].count);
      FlushCounts(b1, i - 1, child[1..]);
      CountsOneMore(child, |child| - |Flush(b1, i - 1, child[1..]).2|);
    }
  }

  /** One write before those that the rest of a flush makes. */
  lemma CountsOneMore(child: seq<Write>, n: nat)
    requires child != [] && child[0].Takes? && 0 < n <= |child|
    requires forall k :: 0 <= k < n - 2 ==> child[1..][k].Takes?
    ensures forall k :: 0 <= k < n - 1 ==> child[k].Takes?
    ensures child[1..][n - 1..] == child[n..] && (n > 1 ==> child[1..][n - 2] == child[n - 1])
  {
    forall k | 0 <= k < n - 1
      ensures child[k].Takes?
    {
      if k > 0 {
        assert child[1..][k - 1].Takes?;
      }
    }
  }

  /**
   * What a flush is, in numbers: the writes it makes and when it stops; and what a child gets that takes whole
   * packets.
   */
  ghost predicate InTenWrites(b: Buffer, child: seq<Write>, b1: Buffer, bytes: seq<int>, rest: seq<Write>)
    requires WellPlaced(b)
  {
    var n, m := |child| - |rest|, if 10 < |b.packets| then 10 else |b.packets|;
    && 0 <= n <= 10 && rest == child[n..]
    && (forall k :: 0 <= k < n - 1 ==> child[k].Takes?)
    && (n < 10 ==> b1.packets == [] || n == |child| || (n > 0 && !child[n - 1].Takes?))
    && (b1.flushError <==> b.flushError || (n > 0 && child[n - 1].Breaks?))
    && (|child| >= 10 && Willing(child, b.packets) ==> b1.packets == b.packets[m..] && bytes == Front(b, m))
  }

  lemma FlushInNumbers(b: Buffer, child: seq<Write>)
    requires WellPlaced(b)
    ensures var (b1, bytes, rest) := Flush(b, FLUSH_WRITES, child); InTenWrites(b, child, b1, bytes, rest)
  {
    hide Flush, Willing, Front, WellPlaced;
    FlushCounts(b, 10, child);
    if |child| >= 10 && Willing(child, b.packets) {
      WillingChildGetsPackets(b, 10, child);
    }
  }

  lemma SentKeepsError(b: Buffer, count: nat)
    requires WellPlaced(b) && b.packets != []
    ensures Sent(b, count).0.flushError == b.flushError
  {}

  /** Once an error is stored it stays, and no packet is accepted any more. */
  lemma {:induction false} ErrorIsFinal(w: World, steps: seq<Step>)
    requires Conserved(w) && w.buffer.flushError
    ensures After(w, steps).buffer.flushError && After(w, steps).accepted == w.accepted
    decreases |steps|
  {
    if steps != [] {
      StepConserves(w, steps[0]);
      assert Apply(w, steps[0]).accepted == w.accepted;
      assert WellPlaced(Apply(w, steps[0]).buffer);
      hide Conserved, Apply;
      ErrorIsFinal(Apply(w, steps[0]), steps[1..]);
    }
  }

  // ----- the functions -----

  /** How a flush ends that has `i` writes left, having moved `bytes`; without `normal` it is over. */
  function Onward(b: Buffer, i: nat, rest: seq<Write>, bytes: seq<int>, normal: bool): (Buffer, seq<int>, seq<Write>)
    requires WellPlaced(b)
  {
    if normal then (Flush(b, i, rest).0, bytes + Flush(b, i, rest).1, Flush(b, i, rest).2) else (b, bytes, rest)
  }

  lemma FlushStep(b: Buffer, i: nat, rest: seq<Write>, bytes: seq<int>)
    requires WellPlaced(b) && b.packets != [] && i > 0
    ensures Onward(b, i, rest, bytes, true) ==
      if rest == [] || rest[0].Busy? then Onward(b, i - 1, if rest == [] then [] else rest[1..], bytes, false)
      else if rest[0].Breaks? then Onward(b.(flushError := true), i - 1, rest[1..], bytes, false)
      else var (b1, sent) := Sent(b, rest[0].count); Onward(b1, i - 1, rest[1..], bytes + sent, true)
  {
    assert bytes + [] == bytes;
    if rest != [] && rest[0].Takes? {
      var (b1, sent) := Sent(b, rest[0].count);
      Associate(bytes, sent, Flush(b1, i - 1, rest[1..]).1);
    }
    hide Sent;
  }

  lemma FlushEnds(b: Buffer, i: nat, rest: seq<Write>)
    requires WellPlaced(b) && (b.packets == [] || i == 0)
    ensures Flush(b, i, rest) == (b, [], rest)
  {
  }

  class ZStreamBuf {
    const bufThreshold: nat
    const immedFlush: bool
    var buffers: seq<seq<int>>
    var pendingPos: nat
    var currentSize: int
    var flushError: bool

    ghost function State(): Buffer
      reads this
    {
      Buffer(buffers, pendingPos, currentSize, flushError)
    }

    constructor (bufThreshold: nat, immedFlush: bool)
      ensures State() == Empty.buffer && Inv(State())
      ensures this.bufThreshold == bufThreshold && this.immedFlush == immedFlush
    {
      this.bufThreshold := bufThreshold;
      this.immedFlush := immedFlush;
      buffers, pendingPos, currentSize, flushError := [], 0, 0, false;
    }

    /** The child has taken up to `count` bytes of the first packet. */
    method Advance(count: nat) returns (bytes: seq<int>)
      requires WellPlaced(State()) && buffers != []
      modifies this
      ensures (State(), bytes) == Sent(old(State()), count)
    {
      var packet := buffers[0];
      var writeLen := Min(count, |packet| - pendingPos);
      bytes := packet[pendingPos..pendingPos + writeLen];
      pendingPos := pendingPos + writeLen;
      if pendingPos >= |packet| {
        currentSize := currentSize - |packet|;
        pendingPos := 0;
        buffers := buffers[1..];
      }
    }

    /**
     * z_stream_buf_flush_internal.  It makes at most ten writes, and stops before that only if the list is
     * empty, the last write was not accepted, or the child has no more to say.  A child that takes whole
     * packets gets the first ten, or all there are.
     */
    method FlushInternal(child: seq<Write>) returns (bytes: seq<int>, rest: seq<Write>)
      requires WellPlaced(State())
      modifies this
      ensures (State(), bytes, rest) == Flush(old(State()), FLUSH_WRITES, child)
      ensures InTenWrites(old(State()), child, State(), bytes, rest)
    {
      hide InTenWrites;
      FlushInNumbers(State(), child);
      hide Flush;
      var i: nat := FLUSH_WRITES;
      bytes := [];
      rest := child;
      var normal := true;
      assert [] + Flush(State(), i, rest).1 == Flush(State(), i, rest).1;
      while buffers != [] && i > 0 && normal
        invariant WellPlaced(State())
        invariant Flush(old(State()), FLUSH_WRITES, child) == Onward(State(), i, rest, bytes, normal)
        decreases i
      {
        hide Flush, Onward, Sent;
        ghost var b, before := State(), bytes;
        FlushStep(b, i, rest, before);
        if rest == [] || rest[0].Busy? {
          normal := false;
          rest := if rest == [] then [] else rest[1..];
        } else if rest[0].Breaks? {
          normal := false;
          flushError := true;
          rest := rest[1..];
        } else {
          var sent := Advance(rest[0].count);
          bytes := bytes + sent;
          rest := rest[1..];
        }
        i := i - 1;
      }
      if normal {
        FlushEnds(State(), i, rest);
        assert bytes + [] == bytes;
      }
    }

    /** z_stream_write_packet_internal, with what the child does if it is flushed at once. */
    method WritePacketInternal(packet: seq<int>, child: seq<Write>) returns (ok: bool, bytes: seq<int>)
      requires WellPlaced(State())
      modifies this
      ensures var (b, accepted) := Accept(old(State()), packet);
        && ok == accepted
        && (State(), bytes) ==
             if ok && immedFlush then (Flush(b, FLUSH_WRITES, child).0, Flush(b, FLUSH_WRITES, child).1) else (b, [])
    {
      hide Flush, InTenWrites;
      if flushError {
        return false, [];
      }
      buffers := buffers + [packet];
      currentSize := currentSize + |packet|;
      bytes := [];
      if immedFlush {
        var rest;
        bytes, rest := FlushInternal(child);
      }
      return true, bytes;
    }

    /** z_stream_buf_space_avail: there is room, or a write would report the error. */
    method SpaceAvail() returns (avail: bool)
      requires Inv(State())
      ensures avail <==> flushError || Total(buffers) < bufThreshold
    {
      return flushError || currentSize < bufThreshold;
    }

    /** z_stream_buf_watch_prepare: the condition for output, and whether the user may write at once. */
    method WatchPrepare(wantWrite: bool) returns (out: bool, ready: bool)
      requires Inv(State())
      ensures out <==> Undelivered(State()) != [] && !flushError
      ensures ready <==> wantWrite && Total(buffers) < bufThreshold
    {
      SizeTellsWork(State());
      return currentSize != 0 && !flushError, wantWrite && currentSize < bufThreshold;
    }
  }
}
