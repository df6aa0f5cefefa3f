/**
 * Reads of blobs in src/blob.c while other threads commit, write and swap.
 *
 * z_blob_get_copy looks at the size of the blob three times without the lock: to see whether there is
 * anything to read, to compare what was asked for with the rest, and to take the rest.  Only then does it
 * wait for the lock, under which it copies the length that it has settled on.  Each look and the copying
 * under the lock are steps of their own beside those of BlobProtocol.
 */
module BlobRead {
  import opened BlobImage
  import opened BlobProtocol
  import opened BlobStore
  import opened Octets
  import opened Sequences

  /**
   * Where a call of z_blob_get_copy is.  `second` and `third` are the sizes seen by the later looks, `at` is
   * what the blob held when the call was decided; no step looks at these.
   */
  datatype Read =
    | Asking(b: Id, pos: nat, n: nat)
    | Inside(b: Id, pos: nat, n: nat)
    | Clipping(b: Id, pos: nat, n: nat, second: nat)
    | Waiting(b: Id, pos: nat, n: nat, len: nat, second: nat, third: nat)
    | Nothing(b: Id, pos: nat, n: nat, at: seq<Octet>)   // there was nothing to read
    | Late(b: Id, pos: nat, n: nat)                      // the lock was not to be had in time
    | Done(b: Id, pos: nat, n: nat, len: nat, second: nat, third: nat, at: seq<Octet>, outcome: Reading)

  datatype System = System(world: World, calls: map<nat, Read>)

  datatype Move =
    | Usual(step: Step)
    | Call(r: nat, b: Id, pos: nat, n: nat)
    | Look(r: nat)
    | Compare(r: nat)
    | Clip(r: nat)
    | Copy(r: nat)
    | GiveUp(r: nat)

  predicate Active(read: Read) {
    read.Asking? || read.Inside? || read.Clipping? || read.Waiting?
  }

  predicate Spinning(read: Read) {
    read.Done? && read.outcome.Spins?
  }

  /** A read that does not end keeps the lock of its blob. */
  ghost predicate Held(y: System, b: Id) {
    exists r :: r in y.calls && y.calls[r].b == b && Spinning(y.calls[r])
  }

  /** Somebody who reads the blob has a reference to it. */
  ghost predicate Referenced(y: System, b: Id) {
    exists r :: r in y.calls && y.calls[r].b == b && (Active(y.calls[r]) || Spinning(y.calls[r]))
  }

  /** What is left of a blob behind a position, as an unsigned number. */
  function Rest(size: nat, pos: nat): nat {
    (size - pos) % WORD
  }

  ghost predicate Can(y: System, m: Move)
    requires Shape(y.world)
  {
    match m
    case Usual(s) =>
      && Enabled(y.world, s)
      && (s.Lock? || s.SwapIn? ==> !Held(y, s.b))
      && (s.Destroy? ==> !Referenced(y, s.b))
    case Call(r, b, _, _) => r !in y.calls && b in y.world.images
    case Look(r) => r in y.calls && y.calls[r].Asking? && y.calls[r].b in y.world.images
    case Compare(r) => r in y.calls && y.calls[r].Inside? && y.calls[r].b in y.world.images
    case Clip(r) => r in y.calls && y.calls[r].Clipping? && y.calls[r].b in y.world.images
    case Copy(r) =>
      && r in y.calls && y.calls[r].Waiting?
      && At(y.world, y.calls[r].b, Unlocked) && !Held(y, y.calls[r].b)
    case GiveUp(r) => r in y.calls && y.calls[r].Waiting?
  }

  // ----- what a look or a copy does to a read -----

  function Looked(read: Read, c: seq<Octet>): Read
    requires read.Asking?
  {
    if read.pos < |c| then Inside(read.b, read.pos, read.n) else Nothing(read.b, read.pos, read.n, c)
  }

  function Compared(read: Read, size: nat): Read
    requires read.Inside?
  {
    if read.n > Rest(size, read.pos) then Clipping(read.b, read.pos, read.n, size)
    else Waiting(read.b, read.pos, read.n, read.n, size, size)
  }

  function Clipped(read: Read, size: nat): Read
    requires read.Clipping?
  {
    Waiting(read.b, read.pos, read.n, Rest(size, read.pos), read.second, size)
  }

  function Finished(read: Read, c: seq<Octet>, outcome: Reading): Read
    requires read.Waiting?
  {
    Done(read.b, read.pos, read.n, read.len, read.second, read.third, c, outcome)
  }

  function SetRead(y: System, r: nat, read: Read): System {
    y.(calls := y.calls[r := read])
  }

  ghost function Do(y: System, m: Move): System
    requires Shape(y.world) && Mail(y.world) && Can(y, m)
  {
    var images := y.world.images;
    match m
    case Usual(s) => y.(world := Apply(y.world, s))
    case Call(r, b, pos, n) => SetRead(y, r, Asking(b, pos, n))
    case Look(r) => SetRead(y, r, Looked(y.calls[r], Contents(images[y.calls[r].b])))
    case Compare(r) => SetRead(y, r, Compared(y.calls[r], images[y.calls[r].b].size))
    case Clip(r) => SetRead(y, r, Clipped(y.calls[r], images[y.calls[r].b].size))
    case Copy(r) =>
      var read := y.calls[r];
      SetRead(y, r, Finished(read, Contents(images[read.b]), Fetch(images[read.b], read.pos, read.len)))
    case GiveUp(r) => SetRead(y, r, Late(y.calls[r].b, y.calls[r].pos, y.calls[r].n))
  }

  // ----- runs -----

  lemma MoveKeepsInv(y: System, m: Move)
    requires Inv(y.world) && Can(y, m)
    ensures Inv(Do(y, m).world)
  {
    if m.Usual? {
      StepKeepsInv(y.world, m.step);
    }
  }

  ghost predicate Possible(y: System, run: seq<Move>)
    requires Inv(y.world)
    decreases |run|
  {
    run != [] ==> Can(y, run[0]) && (MoveKeepsInv(y, run[0]); Possible(Do(y, run[0]), run[1..]))
  }

  ghost function After(y: System, run: seq<Move>): (z: System)
    requires Inv(y.world) && Possible(y, run)
    ensures Inv(z.world)
    decreases |run|
  {
    if run == [] then y
    else
      MoveKeepsInv(y, run[0]);
      After(Do(y, run[0]), run[1..])
  }

  /** Nothing is ever added beyond the end of a swap file with no bytes. */
  ghost predicate NeverTruncating(y: System, run: seq<Move>)
    requires Inv(y.world) && Possible(y, run)
    decreases |run|
  {
    run != [] ==>
      && (run[0].Usual? ==> !Truncating(y.world, run[0].step))
      && (MoveKeepsInv(y, run[0]); NeverTruncating(Do(y, run[0]), run[1..]))
  }

  function Start(g: Budget): System {
    System(Initial(g), map[])
  }

  // ----- the same reads of plain byte strings -----

  datatype Plain = Plain(view: map<Id, seq<Octet>>, calls: map<nat, Read>)

  function PlainFetch(c: seq<Octet>, pos: nat, m: nat): Reading {
    if m == 0 then Got([]) else if pos + m <= |c| then Got(c[pos..pos + m]) else Beyond
  }

  function PlainMove(p: Plain, m: Move): Plain {
    match m
    case Usual(s) => p.(view := PlainStep(p.view, s))
    case Call(r, b, pos, n) => p.(calls := p.calls[r := Asking(b, pos, n)])
    case _ => if m.r in p.calls then p.(calls := p.calls[m.r := PlainRead(p.view, p.calls[m.r], m)]) else p
  }

  function PlainRead(view: map<Id, seq<Octet>>, read: Read, m: Move): Read {
    if m.GiveUp? then Late(read.b, read.pos, read.n)
    else if read.b !in view then read
    else
      var c := view[read.b];
      if m.Look? && read.Asking? then Looked(read, c)
      else if m.Compare? && read.Inside? then Compared(read, |c|)
      else if m.Clip? && read.Clipping? then Clipped(read, |c|)
      else if m.Copy? && read.Waiting? then Finished(read, c, PlainFetch(c, read.pos, read.len))
      else read
  }

  function PlainReads(p: Plain, run: seq<Move>): Plain
    decreases |run|
  {
    if run == [] then p else PlainReads(PlainMove(p, run[0]), run[1..])
  }

  /** The same read, but that what lies behind the end may look different. */
  predicate SameRead(read: Read, plain: Read) {
    || read == plain
    || (plain.Done? && plain.outcome.Beyond? && read.Done? && read == plain.(outcome := read.outcome))
  }

  ghost predicate SameReads(calls: map<nat, Read>, plain: map<nat, Read>) {
    calls.Keys == plain.Keys && forall r :: r in calls ==> SameRead(calls[r], plain[r])
  }

  /** The blobs hold the plain byte strings, and the reads are the same. */
  ghost predicate Alike(y: System, p: Plain) {
    AllReadable(y.world) && View(y.world) == p.view && SameReads(y.calls, p.calls)
  }

  lemma FetchIsPlain(im: Image, pos: nat, m: nat)
    requires Valid(im) && Readable(im)
    ensures PlainFetch(Contents(im), pos, m) == Fetch(im, pos, m) || PlainFetch(Contents(im), pos, m) == Beyond
  {
    if m == 0 || pos + m <= im.size {
      FetchInside(im, pos, m);
    }
    hide Valid, Fetch;
  }

  lemma UsualAlike(y: System, p: Plain, s: Step)
    requires Inv(y.world) && Can(y, Usual(s)) && !Truncating(y.world, s) && Alike(y, p)
    ensures Alike(Do(y, Usual(s)), PlainMove(p, Usual(s)))
  {
    StepRefines(y.world, s);
    hide Enabled, Apply, Shape, Books, Mail, View, AllReadable, Truncating, PlainStep, Held, Referenced;
  }

  lemma ReadAlike(y: System, p: Plain, m: Move)
    requires Inv(y.world) && Can(y, m) && !m.Usual? && Alike(y, p)
    ensures Alike(Do(y, m), PlainMove(p, m))
  {
    hide Books, Mail, Valid, Contents, Readable, Fetch, Held, Referenced, Rest;
    if !m.Call? {
      var read := y.calls[m.r];
      assert SameRead(read, p.calls[m.r]);
      if !m.GiveUp? {
        assert p.view[read.b] == Contents(y.world.images[read.b]);
      }
      if m.Copy? {
        var im := y.world.images[read.b];
        FetchIsPlain(im, read.pos, read.len);
      }
      ChangedRead(y.calls, p.calls, m.r, Do(y, m).calls[m.r], PlainMove(p, m).calls[m.r]);
    }
  }

  lemma ChangedRead(calls: map<nat, Read>, plain: map<nat, Read>, r: nat, read: Read, other: Read)
    requires SameReads(calls, plain) && SameRead(read, other)
    ensures SameReads(calls[r := read], plain[r := other])
  {
    hide SameRead;
  }

  lemma {:induction false} RunAlike(y: System, p: Plain, run: seq<Move>)
    requires Inv(y.world) && Possible(y, run) && NeverTruncating(y, run) && Alike(y, p)
    ensures Alike(After(y, run), PlainReads(p, run))
    decreases |run|
  {
    if run != [] {
      MoveKeepsInv(y, run[0]);
      hide Inv, Can, Do, PlainMove, Alike, Truncating;
      if run[0].Usual? {
        UsualAlike(y, p, run[0].step);
      } else {
        ReadAlike(y, p, run[0]);
      }
      RunAlike(Do(y, run[0]), PlainMove(p, run[0]), run[1..]);
    }
  }

  /**
   * Swapping is invisible.  In any run of any number of requesters, readers and the management thread, from
   * an empty system: the blobs hold what plain byte strings hold, and every read has come as far, with the
   * same length and in the end the same bytes, as the same read of the plain byte strings; only where that
   * would reach beyond the end can it end in another way.
   */
  lemma SwappingIsInvisible(g: Budget, run: seq<Move>)
    requires FreshBudget(g) && Possible(Start(g), run) && NeverTruncating(Start(g), run)
    ensures var y, p := After(Start(g), run), PlainReads(Plain(map[], map[]), run);
      View(y.world) == p.view && SameReads(y.calls, p.calls)
  {
    assert Alike(Start(g), Plain(map[], map[]));
    RunAlike(Start(g), Plain(map[], map[]), run);
    hide *;
  }

  // ----- which reads return the slice that was asked for -----

  /** The length that the later two looks settle on. */
  function Settled(pos: nat, n: nat, second: nat, third: nat): nat {
    if n > Rest(second, pos) then Rest(third, pos) else n
  }

  /**
   * The looks settle on the right length for a blob of this size: if the second look sees that there is less
   * than was asked for (or, for a position that is behind the end by then, if the rest wraps around to less),
   * the third must see the rest there is, and otherwise there must be as much as was asked for.
   */
  predicate Settles(pos: nat, n: nat, second: nat, third: nat, size: nat) {
    if pos <= second < pos + n || (second < pos && n > WORD - (pos - second)) then
      pos <= third && third - pos == Length(size, pos, n)
    else n == 0 || pos + n <= size
  }

  /** Sizes and positions are signed 64-bit numbers. */
  const MAX := WORD / 2

  lemma SettlesExactly(pos: nat, n: nat, second: nat, third: nat, size: nat)
    requires pos < MAX && second < MAX && third < MAX && size < MAX
    ensures Settled(pos, n, second, third) == Length(size, pos, n) <==> Settles(pos, n, second, third, size)
  {
    RestIs(second, pos);
    RestIs(third, pos);
    hide Rest;
  }

  lemma RestIs(size: nat, pos: nat)
    requires size < MAX && pos < MAX
    ensures Rest(size, pos) == if pos <= size then size - pos else WORD - (pos - size)
  {
    if size < pos {
      assert (size - pos + WORD) % WORD == (size - pos) % WORD;
    }
  }

  ghost predicate ReadOk(read: Read) {
    match read
    case Clipping(_, pos, n, second) => n > Rest(second, pos)
    case Waiting(_, pos, n, len, second, third) => len == Settled(pos, n, second, third)
    case Nothing(_, pos, n, at) => |at| <= pos
    case Done(_, pos, n, len, second, third, at, outcome) =>
      && len == Settled(pos, n, second, third)
      && (outcome == Got(Slice(at, pos, n)) <==> len == Length(|at|, pos, n))
      && (len == 0 || pos + len <= |at| ==> outcome == Got(if len == 0 then [] else at[pos..pos + len]))
    case _ => true
  }

  ghost predicate ReadsOk(calls: map<nat, Read>) {
    forall r :: r in calls ==> ReadOk(calls[r])
  }

  lemma MoveKeepsReads(y: System, m: Move)
    requires Inv(y.world) && Can(y, m) && AllReadable(y.world) && ReadsOk(y.calls)
    ensures ReadsOk(Do(y, m).calls)
  {
    hide Books, Mail, Valid, Contents, Readable, Fetch, Held, Referenced, Rest, Slice, Length, Apply, Enabled;
    if !m.Usual? && !m.Call? {
      var read := y.calls[m.r];
      assert ReadOk(read);
      if m.Copy? {
        var im := y.world.images[read.b];
        FetchIsSlice(im, read.pos, read.n, read.len);
        if read.len == 0 || read.pos + read.len <= im.size {
          FetchInside(im, read.pos, read.len);
        }
      }
    }
  }

  lemma {:induction false} RunKeepsReads(y: System, run: seq<Move>)
    requires Inv(y.world) && Possible(y, run) && NeverTruncating(y, run) && AllReadable(y.world) && ReadsOk(y.calls)
    ensures ReadsOk(After(y, run).calls)
    decreases |run|
  {
    if run != [] {
      MoveKeepsInv(y, run[0]);
      MoveKeepsReadable(y, run[0]);
      hide Inv, Can, Do, Truncating, ReadsOk, AllReadable;
      MoveKeepsReads(y, run[0]);
      RunKeepsReads(Do(y, run[0]), run[1..]);
    }
  }

  lemma MoveKeepsReadable(y: System, m: Move)
    requires Inv(y.world) && Can(y, m) && AllReadable(y.world)
    requires m.Usual? ==> !Truncating(y.world, m.step)
    ensures AllReadable(Do(y, m).world)
  {
    if m.Usual? {
      StepRefines(y.world, m.step);
    }
    hide Apply, Enabled, Shape, Books, Mail, AllReadable, Truncating, View, Held, Referenced;
  }

  /**
   * In any run a read that is over has returned the slice of what the blob held when it copied, exactly if its
   * looks settled on the right length; one that found nothing to read was right when it looked.  Whatever it
   * settled on, as long as that lies inside the blob it gets these bytes, all of one moment.
   */
  lemma ReadIsSlice(g: Budget, run: seq<Move>, r: nat)
    requires FreshBudget(g) && Possible(Start(g), run) && NeverTruncating(Start(g), run)
    requires r in After(Start(g), run).calls
    ensures var read := After(Start(g), run).calls[r];
      match read
      case Done(_, pos, n, len, second, third, at, outcome) =>
        && (pos < MAX && second < MAX && third < MAX && |at| < MAX ==>
             (outcome == Got(Slice(at, pos, n)) <==> Settles(pos, n, second, third, |at|)))
        && (len == 0 || pos + len <= |at| ==> outcome == Got(if len == 0 then [] else at[pos..pos + len]))
      case Nothing(_, pos, n, at) => Slice(at, pos, n) == []
      case _ => true
  {
    RunKeepsReads(Start(g), run);
    var read := After(Start(g), run).calls[r];
    assert ReadOk(read);
    hide Possible, After, NeverTruncating, Rest, Settles, Settled, Length;
    if read.Done? && read.pos < MAX && read.second < MAX && read.third < MAX && |read.at| < MAX {
      SettlesExactly(read.pos, read.n, read.second, read.third, |read.at|);
    }
  }

  // ----- a read during which nobody commits or writes -----

  predicate Disturbs(m: Move, b: Id) {
    m.Usual? && (m.step.Commit? || m.step.Write?) && m.step.b == b
  }

  /** Read `r` has seen only `c` so far, and is right if it is over. */
  ghost predicate SeesOnly(y: System, r: nat, b: Id, pos: nat, n: nat, c: seq<Octet>) {
    && r in y.calls && y.calls[r].b == b && y.calls[r].pos == pos && y.calls[r].n == n
    && (Active(y.calls[r]) ==> b in y.world.images && Contents(y.world.images[b]) == c)
    && match y.calls[r]
       case Inside(_, _, _) => pos < |c|
       case Clipping(_, _, _, second) => second == |c| && pos < |c| && n > |c| - pos
       case Waiting(_, _, _, len, _, _) => len == Length(|c|, pos, n)
       case Nothing(_, _, _, _) => Slice(c, pos, n) == []
       case Done(_, _, _, _, _, _, _, outcome) => outcome == Got(Slice(c, pos, n))
       case _ => true
  }

  lemma OwnMoveSeesOnly(y: System, m: Move, r: nat, b: Id, pos: nat, n: nat, c: seq<Octet>)
    requires Inv(y.world) && Can(y, m) && AllReadable(y.world) && |c| < WORD && SeesOnly(y, r, b, pos, n, c)
    requires !m.Usual? && m.r == r
    ensures SeesOnly(Do(y, m), r, b, pos, n, c)
  {
    hide Books, Mail, Valid, Contents, Readable, Fetch, Held, Referenced;
    if m.Copy? {
      FetchIsSlice(y.world.images[b], pos, n, y.calls[r].len);
    }
    assert pos < |c| ==> Rest(|c|, pos) == |c| - pos;
    hide Rest;
  }

  lemma OtherMoveSeesOnly(y: System, m: Move, r: nat, b: Id, pos: nat, n: nat, c: seq<Octet>)
    requires Inv(y.world) && Can(y, m) && SeesOnly(y, r, b, pos, n, c)
    requires if m.Usual? then !Disturbs(m, b) else m.r != r
    ensures SeesOnly(Do(y, m), r, b, pos, n, c)
  {
    hide Apply, Enabled, Shape, Books, Mail, AllReadable, Contents, Slice, Length, Held;
    if m.Usual? && Active(y.calls[r]) {
      assert Referenced(y, b);
      UnchangedIn(y.world, m.step, b);
    }
  }

  lemma NotNewAgain(w: World, s: Step, b: Id)
    requires Shape(w) && Enabled(w, s) && b in w.images
    ensures !(s.New? && s.b == b)
  {
    hide Shape;
  }

  lemma UnchangedIn(w: World, s: Step, b: Id)
    requires Inv(w) && Enabled(w, s) && b in w.images
    requires !((s.Commit? || s.Write? || s.Destroy?) && s.b == b)
    ensures b in Apply(w, s).images && Contents(Apply(w, s).images[b]) == Contents(w.images[b])
  {
    hide Apply, Enabled, Shape, Books, Mail, AllReadable, Contents, Truncating;
    NotNewAgain(w, s, b);
    StepRefines(w, s);
    assert b in View(w) && View(w)[b] == Contents(w.images[b]);
    assert b in View(Apply(w, s)) && View(Apply(w, s))[b] == View(w)[b];
  }

  lemma {:induction false} RunSeesOnly(y: System, run: seq<Move>, r: nat, b: Id, pos: nat, n: nat, c: seq<Octet>)
    requires Inv(y.world) && Possible(y, run) && NeverTruncating(y, run) && AllReadable(y.world)
    requires |c| < WORD && SeesOnly(y, r, b, pos, n, c)
    requires forall i :: 0 <= i < |run| ==> !Disturbs(run[i], b)
    ensures SeesOnly(After(y, run), r, b, pos, n, c)
    decreases |run|
  {
    if run != [] {
      MoveKeepsInv(y, run[0]);
      MoveKeepsReadable(y, run[0]);
      hide Inv, Can, Do, Truncating, SeesOnly, AllReadable, Disturbs;
      if run[0].Usual? || run[0].r != r {
        OtherMoveSeesOnly(y, run[0], r, b, pos, n, c);
      } else {
        OwnMoveSeesOnly(y, run[0], r, b, pos, n, c);
      }
      RunSeesOnly(Do(y, run[0]), run[1..], r, b, pos, n, c);
    }
  }

  /** What a read that is over has returned. */
  function Returned(read: Read): Reading
    requires read.Nothing? || read.Done?
  {
    if read.Nothing? then Got([]) else read.outcome
  }

  lemma {:induction false} RunKeepsReadable(y: System, run: seq<Move>)
    requires Inv(y.world) && Possible(y, run) && NeverTruncating(y, run) && AllReadable(y.world)
    ensures AllReadable(After(y, run).world)
    decreases |run|
  {
    if run != [] {
      MoveKeepsInv(y, run[0]);
      MoveKeepsReadable(y, run[0]);
      hide Inv, Can, Do, Truncating, AllReadable;
      RunKeepsReadable(Do(y, run[0]), run[1..]);
    }
  }

  lemma StartIsReadable(g: Budget)
    ensures AllReadable(Start(g).world)
  {
  }

  /** The run goes on with a read, and nobody commits to its blob or writes to it. */
  ghost predicate GoesOn(y: System, r: nat, b: Id, pos: nat, n: nat, during: seq<Move>)
    requires Inv(y.world)
  {
    && Can(y, Call(r, b, pos, n))
    && Possible(Do(y, Call(r, b, pos, n)), during) && NeverTruncating(Do(y, Call(r, b, pos, n)), during)
    && forall i :: 0 <= i < |during| ==> !Disturbs(during[i], b)
  }

  ghost function Then(y: System, r: nat, b: Id, pos: nat, n: nat, during: seq<Move>): System
    requires Inv(y.world) && GoesOn(y, r, b, pos, n, during)
  {
    After(Do(y, Call(r, b, pos, n)), during)
  }

  lemma UndisturbedHere(y: System, r: nat, b: Id, pos: nat, n: nat, during: seq<Move>)
    requires Inv(y.world) && AllReadable(y.world) && GoesOn(y, r, b, pos, n, during)
    requires b in View(y.world) && |View(y.world)[b]| < WORD
    ensures SeesOnly(Then(y, r, b, pos, n, during), r, b, pos, n, View(y.world)[b])
  {
    hide Shape, Books, Mail, Possible, After, NeverTruncating, Can, Do, View, AllReadable, SeesOnly, Disturbs;
    CallSeesOnly(y, r, b, pos, n);
    RunSeesOnly(Do(y, Call(r, b, pos, n)), during, r, b, pos, n, View(y.world)[b]);
  }

  /**
   * After any run, a read that begins and is over before anybody commits or writes to its blob returns the
   * slice that was asked for, of what the blob held when it began, wherever the blob is moved meanwhile.
   */
  lemma UndisturbedReadIsSlice(g: Budget, before: seq<Move>, r: nat, b: Id, pos: nat, n: nat, during: seq<Move>)
    requires FreshBudget(g) && Possible(Start(g), before) && NeverTruncating(Start(g), before)
    requires GoesOn(After(Start(g), before), r, b, pos, n, during)
    requires b in View(After(Start(g), before).world) && |View(After(Start(g), before).world)[b]| < WORD
    ensures var y := After(Start(g), before);
      var end := Then(y, r, b, pos, n, during);
      && r in end.calls
      && (end.calls[r].Nothing? || end.calls[r].Done? ==>
           Returned(end.calls[r]) == Got(Slice(View(y.world)[b], pos, n)))
  {
    hide FreshBudget, Inv, Possible, After, NeverTruncating, View, AllReadable, Slice, GoesOn, Then;
    StartIsReadable(g);
    RunKeepsReadable(Start(g), before);
    UndisturbedHere(After(Start(g), before), r, b, pos, n, during);
  }

  lemma CallSeesOnly(y: System, r: nat, b: Id, pos: nat, n: nat)
    requires Inv(y.world) && Can(y, Call(r, b, pos, n)) && AllReadable(y.world)
    ensures var z := Do(y, Call(r, b, pos, n));
      b in View(y.world) && Inv(z.world) && AllReadable(z.world) && SeesOnly(z, r, b, pos, n, View(y.world)[b])
  {
    hide Books, Mail, AllReadable, Valid, Contents;
  }

  // ----- reads during which somebody does -----

  /** The moves take `y` to `z`, and truncate nothing. */
  ghost predicate Leads(y: System, run: seq<Move>, z: System)
    requires Inv(y.world)
  {
    Possible(y, run) && NeverTruncating(y, run) && After(y, run) == z
  }

  /** One move in front. */
  lemma First(y: System, m: Move, next: System, rest: seq<Move>, z: System)
    requires Inv(y.world) && Can(y, m) && Do(y, m) == next && (m.Usual? ==> !Truncating(y.world, m.step))
    requires Inv(next.world) && Leads(next, rest, z)
    ensures Leads(y, [m] + rest, z)
  {
    hide Inv, Can, Do, Truncating;
    MoveKeepsInv(y, m);
    assert ([m] + rest)[1..] == rest && ([m] + rest)[0] == m;
  }

  lemma LeadsNowhere(y: System)
    requires Inv(y.world)
    ensures Leads(y, [], y)
  {
    hide Inv;
  }

  lemma {:induction false} Joined(y: System, a: seq<Move>, mid: System, b: seq<Move>, z: System)
    requires Inv(y.world) && Leads(y, a, mid) && Inv(mid.world) && Leads(mid, b, z)
    ensures Leads(y, a + b, z)
    decreases |a|
  {
    hide Shape, Books, Mail, Can, Do, Truncating;
    if a == [] {
      assert a + b == b;
    } else {
      MoveKeepsInv(y, a[0]);
      Joined(Do(y, a[0]), a[1..], mid, b, z);
      assert [a[0]] + (a[1..] + b) == a + b;
      First(y, a[0], Do(y, a[0]), a[1..] + b, z);
    }
  }

  /** The system with another blob and another place of its user. */
  function With(y: System, b: Id, im: Image, pc: Pc): System {
    y.(world := SetPc(SetImage(y.world, b, im), b, pc))
  }

  lemma LockGoes(y: System, b: Id)
    requires Inv(y.world) && At(y.world, b, Unlocked) && !Held(y, b)
    ensures Can(y, Usual(Lock(b))) && Do(y, Usual(Lock(b))) == With(y, b, y.world.images[b], Locked)
  {
    hide Valid, Books, Mail, Distinct, Held, Referenced;
    assert y.world.images[b := y.world.images[b]] == y.world.images;
  }

  lemma UnlockGoes(y: System, b: Id)
    requires Inv(y.world) && At(y.world, b, Locked)
    ensures Can(y, Usual(Unlock(b))) && Do(y, Usual(Unlock(b))) == With(y, b, y.world.images[b], Unlocked)
  {
    hide Valid, Books, Mail, Distinct, Held, Referenced;
    assert y.world.images[b := y.world.images[b]] == y.world.images;
  }

  /** A smaller allocation is granted at once. */
  lemma AskLessGoes(y: System, b: Id, target: nat)
    requires Inv(y.world) && MutexFree(y.world) && At(y.world, b, Locked) && target < y.world.images[b].alloc
    ensures Can(y, Usual(Ask(b, target)))
    ensures var im, z := y.world.images[b], Do(y, Usual(Ask(b, target)));
      && z.calls == y.calls && MutexFree(z.world) && At(z.world, b, Granted)
      && z.world.images[b] == im.(allocReq := target - im.alloc)
  {
    hide Valid, Books, Mail, Distinct, Held, Referenced, SwapOutUnder;
    SettingsAside(y.world.images[b], target - y.world.images[b].alloc, y.world.images[b].storageLocked);
  }

  lemma CommitGoes(y: System, b: Id, n: nat)
    requires Inv(y.world) && At(y.world, b, Granted) && n == y.world.images[b].alloc + y.world.images[b].allocReq
    ensures Can(y, Usual(Commit(b, n)))
    ensures Do(y, Usual(Commit(b, n))) == With(y, b, Committed(y.world.images[b], n), Locked)
  {
    hide Valid, Books, Mail, Distinct, Held, Referenced, Committed;
  }

  lemma WriteGoes(y: System, b: Id, pos: nat, d: seq<Octet>)
    requires Inv(y.world) && At(y.world, b, Locked) && pos + |d| <= y.world.images[b].alloc
    ensures Can(y, Usual(Write(b, pos, d)))
    ensures Do(y, Usual(Write(b, pos, d))) == With(y, b, Stored(y.world.images[b], pos, d), Locked)
  {
    hide Valid, Books, Mail, Distinct, Held, Referenced, Stored;
    assert y.world.pc[b := Locked] == y.world.pc;
  }

  lemma CopyGoes(y: System, r: nat)
    requires Inv(y.world) && r in y.calls && y.calls[r].Waiting?
    requires At(y.world, y.calls[r].b, Unlocked) && !Held(y, y.calls[r].b)
    ensures Can(y, Copy(r))
    ensures var read, im := y.calls[r], y.world.images[y.calls[r].b];
      Do(y, Copy(r)) == SetRead(y, r, Finished(read, Contents(im), Fetch(im, read.pos, read.len)))
  {
    hide Valid, Books, Mail, Distinct, Held, Referenced, Contents, Fetch;
  }

  /** The lock holder makes the blob smaller, and then the read gets the lock. */
  function Shrinking(b: Id, target: nat, r: nat): seq<Move> {
    [Usual(Lock(b))] + ([Usual(Ask(b, target))] + ([Usual(Commit(b, target))] + ([Usual(Unlock(b))] + ([Copy(r)] + []))))
  }

  /**
   * Whatever a read has settled on, while it waits for the lock the blob can be made too small for it: then it
   * never ends, or copies from behind the block, depending on where the blob is.
   */
  lemma ShrinkingSpoils(y: System, r: nat, b: Id, target: nat) returns (z: System)
    requires Inv(y.world) && MutexFree(y.world) && r in y.calls && y.calls[r].Waiting? && y.calls[r].b == b
    requires At(y.world, b, Unlocked) && !Held(y, b)
    requires y.calls[r].len != 0 && target < y.world.images[b].alloc && target < y.calls[r].pos + y.calls[r].len
    ensures Leads(y, Shrinking(b, target, r), z)
    ensures r in z.calls && z.calls[r].Done?
    ensures z.calls[r].outcome == if y.world.images[b].inFile then Spins else Beyond
  {
    hide Shape, Books, Mail, Can, Do, Held, Leads, Committed, Fetch;
    LockGoes(y, b);
    var y1 := Do(y, Usual(Lock(b)));
    MoveKeepsInv(y, Usual(Lock(b)));
    AskLessGoes(y1, b, target);
    var y2 := Do(y1, Usual(Ask(b, target)));
    MoveKeepsInv(y1, Usual(Ask(b, target)));
    CommitGoes(y2, b, target);
    var y3 := Do(y2, Usual(Commit(b, target)));
    MoveKeepsInv(y2, Usual(Commit(b, target)));
    UnlockGoes(y3, b);
    var y4 := Do(y3, Usual(Unlock(b)));
    MoveKeepsInv(y3, Usual(Unlock(b)));
    HeldByCalls(y, y4, b);
    CopyGoes(y4, r);
    z := Do(y4, Copy(r));
    MoveKeepsInv(y4, Copy(r));
    TooShort(y2.world.images[b], target, y.calls[r].pos, y.calls[r].len);
    LeadsNowhere(z);
    First(y4, Copy(r), z, [], z);
    First(y3, Usual(Unlock(b)), y4, [Copy(r)] + [], z);
    First(y2, Usual(Commit(b, target)), y3, [Usual(Unlock(b))] + ([Copy(r)] + []), z);
    First(y1, Usual(Ask(b, target)), y2, [Usual(Commit(b, target))] + ([Usual(Unlock(b))] + ([Copy(r)] + [])), z);
    First(y, Usual(Lock(b)), y1,
      [Usual(Ask(b, target))] + ([Usual(Commit(b, target))] + ([Usual(Unlock(b))] + ([Copy(r)] + []))), z);
  }

  lemma HeldByCalls(y: System, z: System, b: Id)
    requires z.calls == y.calls && !Held(y, b)
    ensures !Held(z, b)
  {
  }

  lemma TooShort(im: Image, n: nat, pos: nat, m: nat)
    requires m != 0 && n < pos + m
    ensures Fetch(Committed(im, n), pos, m) == if im.inFile then Spins else Beyond
  {
  }

  /** The lock holder writes, and then the read gets the lock. */
  function Writing(b: Id, pos: nat, d: seq<Octet>, r: nat): seq<Move> {
    [Usual(Lock(b))] + ([Usual(Write(b, pos, d))] + ([Usual(Unlock(b))] + ([Copy(r)] + [])))
  }

  /**
   * While a read waits for the lock that has settled on fewer bytes than it was asked for, the bytes asked for
   * can be written: then it gets the beginning of them, which is not the slice after the write, and is that
   * before only if the write changed nothing of it.
   */
  lemma WritingSpoils(y: System, r: nat, b: Id, d: seq<Octet>) returns (z: System)
    requires Inv(y.world) && r in y.calls && y.calls[r].Waiting? && y.calls[r].b == b
    requires At(y.world, b, Unlocked) && !Held(y, b) && Readable(y.world.images[b])
    requires var read := y.calls[r];
      |d| == read.n && read.len < read.n && read.pos + read.n <= y.world.images[b].alloc
    ensures Leads(y, Writing(b, y.calls[r].pos, d, r), z)
    ensures r in z.calls && z.calls[r].Done? && b in z.world.images
    ensures z.calls[r].outcome == Got(d[..y.calls[r].len])
    ensures Slice(Contents(z.world.images[b]), y.calls[r].pos, y.calls[r].n) == d != d[..y.calls[r].len]
  {
    hide Shape, Books, Mail, Can, Do, Held, Leads, Stored, Fetch, Slice, Contents, Readable;
    var pos := y.calls[r].pos;
    LockGoes(y, b);
    var y1 := Do(y, Usual(Lock(b)));
    MoveKeepsInv(y, Usual(Lock(b)));
    WriteGoes(y1, b, pos, d);
    var y2 := Do(y1, Usual(Write(b, pos, d)));
    MoveKeepsInv(y1, Usual(Write(b, pos, d)));
    UnlockGoes(y2, b);
    var y3 := Do(y2, Usual(Unlock(b)));
    MoveKeepsInv(y2, Usual(Unlock(b)));
    HeldByCalls(y, y3, b);
    CopyGoes(y3, r);
    z := Do(y3, Copy(r));
    MoveKeepsInv(y3, Copy(r));
    ValidIn(y.world, b);
    PartOfWritten(y.world.images[b], pos, d, y.calls[r].len);
    LeadsNowhere(z);
    First(y3, Copy(r), z, [], z);
    First(y2, Usual(Unlock(b)), y3, [Copy(r)] + [], z);
    First(y1, Usual(Write(b, pos, d)), y2, [Usual(Unlock(b))] + ([Copy(r)] + []), z);
    First(y, Usual(Lock(b)), y1, [Usual(Write(b, pos, d))] + ([Usual(Unlock(b))] + ([Copy(r)] + [])), z);
  }

  lemma ValidIn(w: World, b: Id)
    requires Inv(w) && b in w.images
    ensures Valid(w.images[b])
  {
    hide Books, Mail, Valid;
  }

  lemma PartOfWritten(im: Image, pos: nat, d: seq<Octet>, m: nat)
    requires Valid(im) && Readable(im) && m < |d| && pos + |d| <= im.alloc
    ensures Fetch(Stored(im, pos, d), pos, m) == Got(d[..m])
    ensures Slice(Contents(Stored(im, pos, d)), pos, |d|) == d != d[..m]
  {
    StoreOverlays(im, pos, d);
    var om := Stored(im, pos, d);
    FetchInside(om, pos, m);
    hide Stored, Fetch, Valid, Contents, Overlay;
    assert Contents(om)[pos..pos + |d|] == d;
    assert m != 0 ==> Contents(om)[pos..pos + m] == d[..m];
  }

  /** A call looks twice, or three times, and waits. */
  function Looks(r: nat, b: Id, pos: nat, n: nat, clips: bool): seq<Move> {
    [Call(r, b, pos, n)] + ([Look(r)] + ([Compare(r)] + if clips then [Clip(r)] + [] else []))
  }

  lemma LooksGo(y: System, r: nat, b: Id, pos: nat, n: nat)
    requires Inv(y.world) && r !in y.calls && b in y.world.images && pos < y.world.images[b].size < MAX
    ensures Can(y, Call(r, b, pos, n)) && Do(y, Call(r, b, pos, n)) == SetRead(y, r, Asking(b, pos, n))
    ensures var y1 := SetRead(y, r, Asking(b, pos, n));
      Can(y1, Look(r)) && Do(y1, Look(r)) == SetRead(y, r, Inside(b, pos, n))
    ensures var size, y2 := y.world.images[b].size, SetRead(y, r, Inside(b, pos, n));
      && Can(y2, Compare(r))
      && Do(y2, Compare(r)) == SetRead(y, r,
           if n > size - pos then Clipping(b, pos, n, size) else Waiting(b, pos, n, n, size, size))
  {
    hide Books, Mail, Valid, Distinct, Rest, Contents, Referenced, Held;
    RestIs(y.world.images[b].size, pos);
  }

  lemma ClipGoes(y: System, r: nat, b: Id, pos: nat, n: nat)
    requires Inv(y.world) && b in y.world.images && pos < y.world.images[b].size < MAX
    ensures var size := y.world.images[b].size;
      var y3 := SetRead(y, r, Clipping(b, pos, n, size));
      Can(y3, Clip(r)) && Do(y3, Clip(r)) == SetRead(y, r, Waiting(b, pos, n, size - pos, size, size))
  {
    hide Books, Mail, Valid, Distinct, Rest, Contents, Referenced, Held;
    RestIs(y.world.images[b].size, pos);
  }

  lemma LooksLead(y: System, r: nat, b: Id, pos: nat, n: nat) returns (z: System)
    requires Inv(y.world) && r !in y.calls && b in y.world.images && pos < y.world.images[b].size < MAX
    ensures var size := y.world.images[b].size;
      && Leads(y, Looks(r, b, pos, n, n > size - pos), z)
      && z == SetRead(y, r, Waiting(b, pos, n, Length(size, pos, n), size, size))
  {
    hide Inv, Leads, Can, Do;
    var size := y.world.images[b].size;
    var y1, y2 := SetRead(y, r, Asking(b, pos, n)), SetRead(y, r, Inside(b, pos, n));
    var y3 := SetRead(y, r, Clipping(b, pos, n, size));
    z := SetRead(y, r, Waiting(b, pos, n, Length(size, pos, n), size, size));
    LooksGo(y, r, b, pos, n);
    LeadsNowhere(z);
    if n > size - pos {
      ClipGoes(y, r, b, pos, n);
      First(y3, Clip(r), z, [], z);
      First(y2, Compare(r), y3, [Clip(r)] + [], z);
      First(y1, Look(r), y2, [Compare(r)] + ([Clip(r)] + []), z);
      First(y, Call(r, b, pos, n), y1, [Look(r)] + ([Compare(r)] + ([Clip(r)] + [])), z);
    } else {
      First(y2, Compare(r), z, [], z);
      First(y1, Look(r), y2, [Compare(r)] + [], z);
      First(y, Call(r, b, pos, n), y1, [Look(r)] + ([Compare(r)] + []), z);
    }
  }

  /** If the size falls below the position before the last look, the length wraps around, and no copy can get bytes. */
  lemma LateShrinkWraps(y: System, r: nat, im: Image)
    requires Inv(y.world) && Can(y, Clip(r)) && y.world.images[y.calls[r].b].size < y.calls[r].pos < MAX
    requires Valid(im) && im.alloc < MAX
    ensures var read := Do(y, Clip(r)).calls[r];
      read.Waiting? && MAX < read.len && !Fetch(im, read.pos, read.len).Got?
  {
    var read := y.calls[r];
    RestIs(y.world.images[read.b].size, read.pos);
    FetchOutcome(im, read.pos, Rest(y.world.images[read.b].size, read.pos));
    hide Shape, Books, Mail, Rest, Fetch;
  }

  // ----- from a new system -----

  const HELD := Image(2, 4, false, [7, 7, 0, 0], [], false, 4)

  /** A blob with four bytes allocated gets two. */
  const FILL: seq<Move> :=
    [Usual(New(1))] + ([Usual(Lock(1))] + ([Usual(Ask(1, 4))] + ([Usual(Commit(1, 4))] + ([Usual(Write(1, 0, [7, 7]))] + []))))

  lemma AskMoreGoes(y: System, b: Id, target: nat)
    requires Inv(y.world) && MutexFree(y.world) && At(y.world, b, Locked) && !y.world.images[b].inFile
    requires y.world.images[b].alloc < target
    requires 0 <= y.world.budget.memUsed && y.world.budget.memUsed + target - y.world.images[b].alloc <= y.world.budget.memMax < WORD
    ensures Can(y, Usual(Ask(b, target)))
    ensures var im, z := y.world.images[b], Do(y, Usual(Ask(b, target)));
      && z.calls == y.calls && z.world.mgr == y.world.mgr && At(z.world, b, Granted)
      && z.world.images[b] == im.(allocReq := target - im.alloc)
  {
    hide Valid, Books, Mail, Distinct, Held, Referenced, Decide;
    SettingsAside(y.world.images[b], target - y.world.images[b].alloc, y.world.images[b].storageLocked);
    FitsInMemory(y.world.budget, y.world.images[b].(allocReq := target - y.world.images[b].alloc));
  }

  lemma FitsInMemory(g: Budget, im: Image)
    requires Valid(im) && !im.inFile && 0 <= im.allocReq
    requires 0 <= g.memUsed && g.memUsed + im.allocReq <= g.memMax < WORD
    ensures var v := Decide(g, im); v.granted && v.image == im
  {
    assert (g.memMax - g.memUsed) % WORD == g.memMax - g.memUsed;
    hide SwapOutUnder, Valid;
  }

  lemma GetFileGoes(y: System, b: Id)
    requires Inv(y.world) && MutexFree(y.world) && At(y.world, b, Locked) && !y.world.images[b].storageLocked
    ensures Can(y, Usual(GetFile(b)))
    ensures var z := Do(y, Usual(GetFile(b)));
      && z.calls == y.calls && z.world.mgr == y.world.mgr && At(z.world, b, Locked)
      && Valid(y.world.images[b]) && z.world.images[b] == SwappedOut(y.world.images[b])
  {
    hide Valid, Books, Mail, Distinct, Held, Referenced, SwappedOut;
    assert y.world.images[b].inFile ==> SwappedOut(y.world.images[b]) == y.world.images[b] by {
      InFileStays(y.world.images[b]);
    }
  }

  lemma InFileStays(im: Image)
    requires Valid(im)
    ensures im.inFile ==> SwappedOut(im) == im
  {
  }

  lemma NewGoes(g: Budget)
    requires FreshBudget(g)
    ensures Can(Start(g), Usual(New(1)))
    ensures var z := Do(Start(g), Usual(New(1)));
      && z.calls == map[] && z.world.mgr.Idle? && z.world.budget == g
      && At(z.world, 1, Unlocked) && z.world.images[1] == FreshImage
  {
    hide Valid, Books, Mail, Distinct;
  }

  lemma FilledImage()
    ensures Committed(FreshImage.(allocReq := 4), 4).alloc == 4
    ensures Stored(Committed(FreshImage.(allocReq := 4), 4), 0, [7, 7]) == HELD
    ensures Valid(HELD) && Contents(HELD) == [7, 7]
    ensures SwappedOut(HELD).inFile && Contents(SwappedOut(HELD)) == [7, 7]
  {
    assert Committed(FreshImage.(allocReq := 4), 4).data == [0, 0, 0, 0];
    SwapOutInvisible(HELD);
  }

  lemma NoReads(y: System)
    requires y.calls == map[]
    ensures forall b :: !Held(y, b)
  {
  }

  lemma FillLeads(g: Budget) returns (z: System)
    requires FreshBudget(g) && 4 <= g.memMax
    ensures Inv(Start(g).world) && Leads(Start(g), FILL, z)
    ensures Inv(z.world) && z.calls == map[] && z.world.mgr.Idle? && At(z.world, 1, Locked) && z.world.images[1] == HELD
  {
    hide Shape, Books, Mail, Can, Do, Held, Leads, Committed, Stored;
    NewGoes(g);
    var y0 := Start(g);
    var y1 := Do(y0, Usual(New(1)));
    MoveKeepsInv(y0, Usual(New(1)));
    NoReads(y1);
    LockGoes(y1, 1);
    var y2 := Do(y1, Usual(Lock(1)));
    MoveKeepsInv(y1, Usual(Lock(1)));
    AskMoreGoes(y2, 1, 4);
    var y3 := Do(y2, Usual(Ask(1, 4)));
    MoveKeepsInv(y2, Usual(Ask(1, 4)));
    CommitGoes(y3, 1, 4);
    var y4 := Do(y3, Usual(Commit(1, 4)));
    MoveKeepsInv(y3, Usual(Commit(1, 4)));
    FilledImage();
    WriteGoes(y4, 1, 0, [7, 7]);
    z := Do(y4, Usual(Write(1, 0, [7, 7])));
    MoveKeepsInv(y4, Usual(Write(1, 0, [7, 7])));
    LeadsNowhere(z);
    First(y4, Usual(Write(1, 0, [7, 7])), z, [], z);
    First(y3, Usual(Commit(1, 4)), y4, [Usual(Write(1, 0, [7, 7]))] + [], z);
    First(y2, Usual(Ask(1, 4)), y3, [Usual(Commit(1, 4))] + ([Usual(Write(1, 0, [7, 7]))] + []), z);
    First(y1, Usual(Lock(1)), y2, [Usual(Ask(1, 4))] + ([Usual(Commit(1, 4))] + ([Usual(Write(1, 0, [7, 7]))] + [])), z);
    First(y0, Usual(New(1)), y1,
      [Usual(Lock(1))] + ([Usual(Ask(1, 4))] + ([Usual(Commit(1, 4))] + ([Usual(Write(1, 0, [7, 7]))] + []))), z);
  }

  /** The blob is swapped out, or not, and given free. */
  function Releasing(toFile: bool): seq<Move> {
    (if toFile then [Usual(GetFile(1))] else []) + ([Usual(Unlock(1))] + [])
  }

  lemma ReleasingLeads(y: System, toFile: bool) returns (z: System)
    requires Inv(y.world) && y.calls == map[] && y.world.mgr.Idle? && At(y.world, 1, Locked) && y.world.images[1] == HELD
    ensures Leads(y, Releasing(toFile), z)
    ensures Inv(z.world) && z.calls == map[] && z.world.mgr.Idle? && At(z.world, 1, Unlocked)
    ensures Valid(HELD) && z.world.images[1] == if toFile then SwappedOut(HELD) else HELD
  {
    hide Shape, Books, Mail, Can, Do, Held, Leads, SwappedOut;
    FilledImage();
    var y1 := y;
    if toFile {
      GetFileGoes(y, 1);
      y1 := Do(y, Usual(GetFile(1)));
      MoveKeepsInv(y, Usual(GetFile(1)));
    }
    UnlockGoes(y1, 1);
    z := Do(y1, Usual(Unlock(1)));
    MoveKeepsInv(y1, Usual(Unlock(1)));
    LeadsNowhere(z);
    First(y1, Usual(Unlock(1)), z, [], z);
    if toFile {
      First(y, Usual(GetFile(1)), y1, [Usual(Unlock(1))] + [], z);
    } else {
      assert [] + ([Usual(Unlock(1))] + []) == [Usual(Unlock(1))] + [];
    }
  }

  /** A blob that holds two bytes, in the file or in memory, and a read of `n` bytes that waits for its lock. */
  lemma WaitingLeads(g: Budget, toFile: bool, n: nat) returns (z: System)
    requires FreshBudget(g) && 4 <= g.memMax
    ensures Inv(Start(g).world) && Leads(Start(g), FILL + Releasing(toFile) + Looks(0, 1, 0, n, n > 2), z)
    ensures Inv(z.world) && z.world.mgr.Idle? && At(z.world, 1, Unlocked)
    ensures Valid(HELD) && z.world.images[1] == if toFile then SwappedOut(HELD) else HELD
    ensures z.calls == map[0 := Waiting(1, 0, n, if n > 2 then 2 else n, 2, 2)]
  {
    hide Shape, Books, Mail, Can, Do, Held, Leads, SwappedOut;
    var y1 := FillLeads(g);
    var y2 := ReleasingLeads(y1, toFile);
    FilledImage();
    SwapOutInvisible(HELD);
    assert y2.world.images[1].size == 2;
    z := LooksLead(y2, 0, 1, 0, n);
    Joined(Start(g), FILL, y1, Releasing(toFile), y2);
    Joined(Start(g), FILL + Releasing(toFile), y2, Looks(0, 1, 0, n, n > 2), z);
  }

  /**
   * A run in which a read of the two bytes that a blob holds overlaps with making the blob empty: the read
   * never ends if the blob is in its file, and copies from behind the block if it is in memory.
   */
  lemma ShrinkingSpoilsARead(g: Budget, toFile: bool) returns (z: System)
    requires FreshBudget(g) && 4 <= g.memMax
    ensures Inv(Start(g).world)
    ensures Leads(Start(g), FILL + Releasing(toFile) + Looks(0, 1, 0, 2, false) + Shrinking(1, 0, 0), z)
    ensures 0 in z.calls && z.calls[0].Done? && z.calls[0].outcome == if toFile then Spins else Beyond
  {
    hide Shape, Books, Mail, Can, Do, Leads, SwappedOut;
    var y := WaitingLeads(g, toFile, 2);
    SwapOutInvisible(HELD);
    FilledImage();
    z := ShrinkingSpoils(y, 0, 1, 0);
    Joined(Start(g), FILL + Releasing(toFile) + Looks(0, 1, 0, 2, false), y, Shrinking(1, 0, 0), z);
  }

  /**
   * A run in which a read of four bytes overlaps with the writing of four where there were two: it returns
   * the first two of the new ones, which is the slice neither before nor after.
   */
  lemma WritingSpoilsARead(g: Budget, toFile: bool) returns (z: System)
    requires FreshBudget(g) && 4 <= g.memMax
    ensures Inv(Start(g).world)
    ensures Leads(Start(g), FILL + Releasing(toFile) + Looks(0, 1, 0, 4, true) + Writing(1, 0, [1, 2, 3, 4], 0), z)
    ensures 0 in z.calls && z.calls[0].Done? && z.calls[0].outcome == Got([1, 2])
    ensures 1 in z.world.images && Contents(HELD) == [7, 7] && Slice(Contents(z.world.images[1]), 0, 4) == [1, 2, 3, 4]
  {
    hide Shape, Books, Mail, Can, Do, Leads, SwappedOut, Slice, Contents;
    var y := WaitingLeads(g, toFile, 4);
    SwapOutInvisible(HELD);
    FilledImage();
    z := WritingSpoils(y, 0, 1, [1, 2, 3, 4]);
    Joined(Start(g), FILL + Releasing(toFile) + Looks(0, 1, 0, 4, true), y, Writing(1, 0, [1, 2, 3, 4], 0), z);
    assert [1, 2, 3, 4][..2] == [1, 2];
  }
}
