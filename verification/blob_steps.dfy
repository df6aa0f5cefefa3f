/**
 * What single steps of BlobProtocol do, in terms of the state alone: what is posted and in which order it is
 * handled, which blobs move between memory and file, what becomes of a request, and who can go on.
 */
module BlobSteps {
  import opened BlobImage
  import opened BlobProtocol
  import opened BlobStore
  import opened Octets
  import opened Sequences

  /** The blob that a step decides about, if it does. */
  ghost predicate Decides(w: World, s: Step, b: Id)
    requires Shape(w) && Mail(w) && Enabled(w, s)
  {
    match s
    case Ask(a, _) => a == b
    case Answer => w.mgr.msg.id == b
    case WalkNext => w.mgr.todo[0] == b
    case _ => false
  }

  /** The change of the allocation that it decides about. */
  ghost function Change(w: World, s: Step, b: Id): int
    requires Shape(w) && Mail(w) && Enabled(w, s) && b in w.images
  {
    if s.Ask? then s.target - w.images[b].alloc else w.images[b].allocReq
  }

  /** It gives bytes back: a smaller allocation is asked for, or a blob that has one dies. */
  ghost predicate GivesBack(w: World, s: Step)
    requires Shape(w) && Mail(w) && Enabled(w, s)
  {
    OnlySleepersAreNamed(w);
    match s
    case Ask(b, target) => target < w.images[b].alloc
    case Answer => w.images[w.mgr.msg.id].allocReq < 0
    case WalkNext => w.images[w.mgr.todo[0]].allocReq < 0
    case Destroy(b) => 0 < w.images[b].alloc
    case _ => false
  }

  /** The queue after a step. */
  ghost function Queued(w: World, s: Step): seq<Message>
    requires Inv(w) && Enabled(w, s)
  {
    (if s.Receive? then w.queue[1..] else w.queue) +
    (if s.Post? then [Request(s.b)] else if GivesBack(w, s) then [MemFreed] else [])
  }

  lemma AskPosts(w: World, b: Id, target: nat)
    requires Inv(w) && Enabled(w, Ask(b, target))
    ensures Apply(w, Ask(b, target)).queue == Queued(w, Ask(b, target))
  {
    hide Valid, Decide, Books, Mail, Distinct;
    SettingsAside(w.images[b], target - w.images[b].alloc, w.images[b].storageLocked);
  }

  lemma AnswerPosts(w: World)
    requires Inv(w) && Enabled(w, Answer)
    ensures Apply(w, Answer).queue == Queued(w, Answer)
  {
    hide Valid, Decide, Books, Mail, Distinct;
    OnlySleepersAreNamed(w);
  }

  lemma WalkPosts(w: World)
    requires Inv(w) && Enabled(w, WalkNext)
    ensures Apply(w, WalkNext).queue == Queued(w, WalkNext)
  {
    hide Valid, Decide, Books, Mail, Distinct;
    OnlySleepersAreNamed(w);
  }

  lemma DestroyPosts(w: World, b: Id)
    requires Inv(w) && Enabled(w, Destroy(b))
    ensures Apply(w, Destroy(b)).queue == Queued(w, Destroy(b))
  {
    hide Valid, Decide, Books, Mail, Distinct, Remove;
    SettingsAside(w.images[b], 0 - w.images[b].alloc, w.images[b].storageLocked);
  }

  lemma OthersPost(w: World, s: Step)
    requires Inv(w) && Enabled(w, s) && !s.Ask? && !s.Answer? && !s.WalkNext? && !s.Destroy?
    ensures Apply(w, s).queue == Queued(w, s)
    ensures s.Receive? ==> Apply(w, s).mgr == InHand(w.queue[0])
  {
    hide Shape, Mail, Books, Committed, Stored, SwapOutUnder, SwappedIn;
    assert w.queue + [] == w.queue;
  }

  /**
   * Messages are taken in the order in which they were posted.  A request is posted by the step that is for
   * that, a notice of freed memory exactly by those that give bytes back, and nothing else by any.
   */
  lemma WhatIsPosted(w: World, s: Step)
    requires Inv(w) && Enabled(w, s)
    ensures s.Receive? ==> Apply(w, s).mgr == InHand(w.queue[0])
    ensures Apply(w, s).queue ==
      (if s.Receive? then w.queue[1..] else w.queue) +
      (if s.Post? then [Request(s.b)] else if GivesBack(w, s) then [MemFreed] else [])
  {
    hide Apply, Shape, Books, Mail, GivesBack;
    match s
    case Ask(b, target) => AskPosts(w, b, target);
    case Answer => AnswerPosts(w);
    case WalkNext => WalkPosts(w);
    case Destroy(b) => DestroyPosts(w, b);
    case _ => OthersPost(w, s);
  }

  // ----- which blobs move -----

  /** A decision about `b` that memory has no room for and the disk has. */
  ghost predicate NeedsTheDisk(w: World, s: Step, b: Id)
    requires Shape(w) && Mail(w) && Enabled(w, s) && b in w.images
  {
    && Decides(w, s, b) && 0 <= Change(w, s, b)
    && w.budget.memUsed + Change(w, s, b) > w.budget.memMax
    && w.images[b].alloc + Change(w, s, b) <= DiskLeft(w.budget)
  }

  lemma DecisionMoves(w: World, s: Step, b: Id)
    requires Inv(w) && Enabled(w, s) && Fitting(w.budget) && b in w.images && Decides(w, s, b)
    ensures b in Apply(w, s).images
    ensures var im, om := w.images[b], Apply(w, s).images[b];
      && (im.inFile ==> om.inFile) && om.storageLocked == im.storageLocked
      && (!im.inFile && om.inFile <==> !im.inFile && !im.storageLocked && NeedsTheDisk(w, s, b))
  {
    hide Valid, Decide, Books, Places, Distinct;
    OnlySleepersAreNamed(w);
    var im := w.images[b];
    SettingsAside(im, Change(w, s, b), im.storageLocked);
    DecisionMovesExactly(w.budget, im.(allocReq := Change(w, s, b)));
    KeepsTheRequest(w.budget, im.(allocReq := Change(w, s, b)));
  }

  ghost predicate ByManager(s: Step) {
    s.Receive? || s.Answer? || s.BeginWalk? || s.WalkNext? || s.EndWalk? || s.SwapIn? || s.EndSwap?
  }

  lemma ManagerLeavesThere(w: World, s: Step, b: Id)
    requires Inv(w) && Enabled(w, s) && b in w.images && !Decides(w, s, b) && ByManager(s) && s != SwapIn(b)
    ensures b in Apply(w, s).images && Apply(w, s).images[b] == w.images[b]
  {
    hide Apply, Shape, Books, Mail;
    match s
    case Answer => AnswerLeavesThere(w, b);
    case WalkNext => WalkLeavesThere(w, b);
    case _ => QuietLeavesThere(w, s, b);
  }

  lemma QuietLeavesThere(w: World, s: Step, b: Id)
    requires Inv(w) && Enabled(w, s) && b in w.images && ByManager(s) && !s.Answer? && !s.WalkNext? && s != SwapIn(b)
    ensures b in Apply(w, s).images && Apply(w, s).images[b] == w.images[b]
  {
    hide Shape, Mail, Books, SwappedIn;
  }

  lemma AnswerLeavesThere(w: World, b: Id)
    requires Inv(w) && Enabled(w, Answer) && b in w.images && w.mgr.msg.id != b
    ensures b in Apply(w, Answer).images && Apply(w, Answer).images[b] == w.images[b]
  {
    hide Valid, Decide, Books, Mail, Distinct;
    OnlySleepersAreNamed(w);
  }

  lemma WalkLeavesThere(w: World, b: Id)
    requires Inv(w) && Enabled(w, WalkNext) && b in w.images && w.mgr.todo[0] != b
    ensures b in Apply(w, WalkNext).images && Apply(w, WalkNext).images[b] == w.images[b]
  {
    hide Valid, Decide, Books, Mail, Distinct;
    OnlySleepersAreNamed(w);
  }

  lemma OwnersLeaveThere(w: World, s: Step, b: Id)
    requires Inv(w) && Enabled(w, s) && b in w.images && !Decides(w, s, b) && !ByManager(s) && s != GetFile(b)
    ensures b in Apply(w, s).images ==>
      && Apply(w, s).images[b].inFile == w.images[b].inFile
      && Apply(w, s).images[b].storageLocked == PinnedAfter(w.images[b].storageLocked, s, b)
  {
    hide Valid, Decide, Books, Mail, Distinct, Remove, Fit, FileWrite, Overlay, SwapOutUnder;
  }

  predicate PinnedAfter(pinned: bool, s: Step, b: Id) {
    if s.Pin? && s.b == b then s.on else pinned
  }

  /** Where a blob is after a step that decides nothing about it. */
  predicate PlaceAfter(inFile: bool, s: Step, b: Id) {
    if s == GetFile(b) then true else if s == SwapIn(b) then false else inFile
  }

  lemma OthersStay(w: World, s: Step, b: Id)
    requires Inv(w) && Enabled(w, s) && b in w.images && !Decides(w, s, b)
    ensures b in Apply(w, s).images ==>
      && Apply(w, s).images[b].inFile == PlaceAfter(w.images[b].inFile, s, b)
      && Apply(w, s).images[b].storageLocked == PinnedAfter(w.images[b].storageLocked, s, b)
  {
    if s == GetFile(b) || s == SwapIn(b) {
      hide Books, Mail, Distinct, SwappedIn, SwappedOut, Valid;
      SwappingMoves(w.images[b]);
    } else {
      hide Inv, Enabled, Apply;
      if ByManager(s) {
        ManagerLeavesThere(w, s, b);
      } else {
        OwnersLeaveThere(w, s, b);
      }
    }
  }

  lemma SwappingMoves(im: Image)
    requires Valid(im)
    ensures SwappedOut(im).inFile == (im.inFile || !im.storageLocked) && !SwappedIn(im).inFile
    ensures SwappedOut(im).storageLocked == SwappedIn(im).storageLocked == im.storageLocked
  {}

  /**
   * A blob goes to a file exactly when its owner asks for the file, or for more than memory has left and no
   * more than the disk has left; it comes back exactly in the swap-in step, which leaves the memory counter at
   * most at the high water mark.  Pinned blobs stay where they are, and only their owners pin or release them.
   */
  lemma WhoMoves(w: World, s: Step, b: Id)
    requires Inv(w) && Enabled(w, s) && Fitting(w.budget) && b in w.images && b in Apply(w, s).images
    ensures var im, om := w.images[b], Apply(w, s).images[b];
      && (!im.inFile && om.inFile <==> !im.inFile && !im.storageLocked && (s == GetFile(b) || NeedsTheDisk(w, s, b)))
      && (im.inFile && !om.inFile <==> s == SwapIn(b))
      && (s == SwapIn(b) ==> !im.storageLocked && Apply(w, s).budget.memUsed <= w.budget.hiwat)
      && om.storageLocked == if s.Pin? && s.b == b then s.on else im.storageLocked
  {
    hide Apply, Valid, Books, Mail, Distinct;
    if Decides(w, s, b) {
      DecisionMoves(w, s, b);
    } else {
      OthersStay(w, s, b);
      SwapInRises(w, s);
    }
  }

  lemma SwapInRises(w: World, s: Step)
    requires Inv(w) && Enabled(w, s)
    ensures s.SwapIn? ==> Apply(w, s).budget.memUsed == w.budget.memUsed + w.images[s.b].alloc
  {
    hide Valid, Books, Places, Distinct;
  }

  /** The management thread begins to swap in exactly when memory is below its low water mark and the disk is not below the high one. */
  lemma WhenItSwaps(w: World, s: Step)
    requires Inv(w) && Enabled(w, s) && !w.mgr.Swapping?
    ensures Apply(w, s).mgr.Swapping? <==>
      s.EndWalk? && w.budget.memUsed < w.budget.lowat && w.budget.hiwat <= w.budget.diskUsed
  {
    if s.EndWalk? {
      hide Books, Mail, Shape;
    } else {
      OthersDoNotSwap(w, s);
      hide Inv, Enabled, Apply;
    }
  }

  lemma OthersDoNotSwap(w: World, s: Step)
    requires Inv(w) && Enabled(w, s) && !w.mgr.Swapping? && !s.EndWalk?
    ensures !Apply(w, s).mgr.Swapping?
  {
    hide Shape, Decide, Books, Mail, SwapOutUnder, SwappedIn, Remove;
  }

  // ----- what becomes of a request -----

  /** The owner of `b` has asked for `target` bytes in all, and has not taken them yet. */
  ghost predicate Asked(w: World, b: Id, target: nat) {
    && b in w.images && b in w.pc && !w.pc[b].Unlocked? && !w.pc[b].Locked?
    && w.images[b].alloc + w.images[b].allocReq == target
  }

  lemma AskingAsks(w: World, b: Id, target: nat)
    requires Inv(w) && Enabled(w, Ask(b, target))
    ensures Asked(Apply(w, Ask(b, target)), b, target)
  {
    hide Valid, Decide, Books, Places, Distinct;
    var asked := w.images[b].(allocReq := target - w.images[b].alloc);
    SettingsAside(w.images[b], asked.allocReq, asked.storageLocked);
    KeepsTheRequest(w.budget, asked);
  }

  lemma KeepsTheRequest(g: Budget, im: Image)
    requires Valid(im)
    ensures var om := Decide(g, im).image;
      om.alloc == im.alloc && om.allocReq == im.allocReq && om.storageLocked == im.storageLocked
  {
    hide Valid;
  }

  lemma DecisionKeepsAsked(w: World, s: Step, b: Id, target: nat)
    requires Inv(w) && Enabled(w, s) && Asked(w, b, target) && (s.Answer? || s.WalkNext?)
    ensures Asked(Apply(w, s), b, target)
  {
    hide Valid, Decide, Books, Mail, Distinct;
    OnlySleepersAreNamed(w);
    KeepsTheRequest(w.budget, w.images[b]);
  }

  lemma OthersKeepAsked(w: World, s: Step, b: Id, target: nat)
    requires Inv(w) && Enabled(w, s) && Asked(w, b, target) && !(s.Commit? && s.b == b) && !s.Answer? && !s.WalkNext?
    ensures Asked(Apply(w, s), b, target)
  {
    hide Valid, Decide, Books, Mail, Distinct, Remove, Committed, Stored, SwapOutUnder, SwappedIn;
  }

  lemma StepKeepsAsked(w: World, s: Step, b: Id, target: nat)
    requires Inv(w) && Enabled(w, s) && Asked(w, b, target) && !(s.Commit? && s.b == b)
    ensures Asked(Apply(w, s), b, target)
  {
    hide Inv, Enabled, Apply, Asked;
    if s.Answer? || s.WalkNext? {
      DecisionKeepsAsked(w, s, b, target);
    } else {
      OthersKeepAsked(w, s, b, target);
    }
  }

  /**
   * Whatever happens in between, what the owner takes in the end is what it asked for, and it has the lock
   * again.
   */
  lemma {:induction false} WhatIsTakenWasAskedFor(w: World, b: Id, target: nat, run: seq<Step>, n: nat)
    requires Inv(w) && Asked(w, b, target) && Possible(w, run + [Commit(b, n)])
    requires forall i :: 0 <= i < |run| ==> !(run[i].Commit? && run[i].b == b)
    ensures n == target
    ensures var v := After(w, run + [Commit(b, n)]); At(v, b, Locked) && v.images[b].alloc == target
    decreases |run|
  {
    hide Shape, Books, Mail, Enabled, Apply, Asked;
    var all := run + [Commit(b, n)];
    if run == [] {
      assert all[0] == Commit(b, n) && all[1..] == [];
      assert all == [Commit(b, n)];
      TakingTakes(w, b, n);
    } else {
      assert all[0] == run[0] && all[1..] == run[1..] + [Commit(b, n)];
      StepKeepsInv(w, run[0]);
      StepKeepsAsked(w, run[0], b, target);
      WhatIsTakenWasAskedFor(Apply(w, run[0]), b, target, run[1..], n);
    }
  }

  lemma TakingTakes(w: World, b: Id, n: nat)
    requires Inv(w) && Enabled(w, Commit(b, n))
    ensures forall target :: Asked(w, b, target) ==> target == n
    ensures var v := After(w, [Commit(b, n)]); Possible(w, [Commit(b, n)]) && At(v, b, Locked) && v.images[b].alloc == n
  {
    hide Valid, Books, Places, Distinct;
  }

  // ----- who can go on -----

  /** Nobody but threads that are outside of all calls can do anything. */
  ghost predicate AtRest(w: World)
    requires Shape(w)
  {
    forall s :: Enabled(w, s) ==> s.New? || s.Lock? || s.Pin? || s.Destroy?
  }

  /** Then every request has been looked at, and only owners of blobs in the waiting list wait. */
  lemma OnlyWaitersWait(w: World)
    requires Inv(w) && AtRest(w)
    ensures w.mgr == Idle && w.queue == []
    ensures forall b :: b in w.images ==> w.pc[b] == Unlocked || (w.pc[b] == Blocked && b in w.waiting)
  {
    ManagerRests(w);
    forall b | b in w.images
      ensures w.pc[b] == Unlocked || (w.pc[b] == Blocked && b in w.waiting)
    {
      OwnerRests(w, b);
    }
  }

  lemma ManagerRests(w: World)
    requires Shape(w) && AtRest(w)
    ensures w.mgr == Idle && w.queue == []
  {
    hide Shape;
    assert !Enabled(w, Receive) && !Enabled(w, Answer) && !Enabled(w, BeginWalk);
    assert !Enabled(w, WalkNext) && !Enabled(w, EndWalk) && !Enabled(w, EndSwap);
  }

  lemma OwnerRests(w: World, b: Id)
    requires Inv(w) && AtRest(w) && w.mgr == Idle && w.queue == [] && b in w.images
    ensures w.pc[b] == Unlocked || (w.pc[b] == Blocked && b in w.waiting)
  {
    hide Valid, Books, Distinct;
    assert !Enabled(w, Unlock(b)) && !Enabled(w, Post(b));
    GrantsCanBeTaken(w, b);
    assert Places(w, b) == if w.pc[b] == Blocked then 1 else 0;
  }

  lemma GrantsCanBeTaken(w: World, b: Id)
    requires Inv(w) && b in w.images
    ensures w.pc[b] == Granted ==> exists n: nat :: Enabled(w, Commit(b, n))
  {
    hide Valid, Books, Mail, Distinct;
    if w.pc[b] == Granted {
      assert Enabled(w, Commit(b, w.images[b].alloc + w.images[b].allocReq));
    }
  }

  /** While it swaps, the management thread can take any free blob in a file that fits below the high water mark. */
  lemma ManagerCanSwap(w: World, b: Id)
    requires Inv(w) && w.mgr.Swapping? && b in w.images && w.pc[b] == Unlocked
    requires w.images[b].inFile && !w.images[b].storageLocked && w.budget.memUsed + w.images[b].alloc <= w.budget.hiwat
    ensures Enabled(w, SwapIn(b)) && !Apply(w, SwapIn(b)).images[b].inFile
  {
    hide Books, Mail, Distinct, Valid;
  }

  /** The owner of the lock can ask for any other size and write inside what is allocated; a free blob can be locked. */
  lemma OwnersCanMove(w: World, b: Id, target: nat, pos: nat, d: seq<Octet>)
    requires Inv(w) && b in w.images
    ensures w.pc[b] == Unlocked ==> Enabled(w, Lock(b)) && At(Apply(w, Lock(b)), b, Locked)
    ensures w.pc[b] == Locked && pos + |d| <= w.images[b].alloc ==> Enabled(w, Write(b, pos, d))
    ensures w.pc[b] == Locked && !w.mgr.Walking? && !w.mgr.Swapping? && target != w.images[b].alloc ==>
      Enabled(w, Ask(b, target)) && Apply(w, Ask(b, target)).pc[b] in {Granted, Denied}
    ensures Enabled(w, Pin(b, true)) && Enabled(w, Pin(b, false))
  {
    hide Valid, Decide, Books, Places, Distinct, Stored;
  }
}
