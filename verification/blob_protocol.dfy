/**
 * Requesters and the management thread of src/blob.c as a transition system.
 *
 * A requester that wants to change a blob's allocation holds the blob's lock throughout.  It asks for
 * itself first; if denied it posts a request and sleeps.  The management thread takes messages from
 * the queue, answers requests it can grant, parks the others in the waiting list, and after a
 * MEM_FREED message walks that list and swaps blobs in.  Each step below is one stretch of C code
 * between two points where another thread can run; any interleaving of them is a run.  Reads take several
 * such stretches each and are added in BlobRead.
 */
module BlobProtocol {
  import opened BlobImage
  import opened BlobStore
  import opened Octets
  import opened Sequences

  type Id = nat

  datatype Message = Request(id: Id) | MemFreed

  /** Where the thread that uses a blob stands. */
  datatype Pc =
    | Unlocked
    | Locked    // holds the blob's lock
    | Denied    // was turned down, and has not posted its request yet
    | Blocked   // sleeps until it is answered
    | Granted   // may change the allocation, and has not done so yet

  datatype Manager =
    | Idle
    | InHand(msg: Message)
    | Walking(todo: seq<Id>)  // holds the system's mutex, some waiting blobs still to be asked
    | Swapping                // holds the system's mutex

  datatype World = World(
    budget: Budget,
    blobs: seq<Id>,
    images: map<Id, Image>,
    pc: map<Id, Pc>,
    queue: seq<Message>,
    waiting: seq<Id>,
    mgr: Manager)

  datatype Step =
    | New(b: Id)
    | Lock(b: Id)
    | Unlock(b: Id)
    | Ask(b: Id, target: nat)
    | Post(b: Id)
    | Commit(b: Id, n: nat)
    | Write(b: Id, pos: nat, d: seq<Octet>)
    | GetFile(b: Id)
    | Pin(b: Id, on: bool)
    | Destroy(b: Id)
    | Receive
    | Answer
    | BeginWalk
    | WalkNext
    | EndWalk
    | SwapIn(b: Id)
    | EndSwap

  function Initial(g: Budget): World {
    World(g, [], map[], map[], [], [], Idle)
  }

  predicate MutexFree(w: World) {
    w.mgr.Idle? || w.mgr.InHand?
  }

  predicate At(w: World, b: Id, pc: Pc) {
    b in w.images && b in w.pc && w.pc[b] == pc
  }

  // ----- the steps -----

  ghost predicate Enabled(w: World, s: Step)
    requires Shape(w)
  {
    match s
    case New(b) => MutexFree(w) && b !in w.images
    case Lock(b) => At(w, b, Unlocked)
    case Unlock(b) => At(w, b, Locked)
    case Ask(b, target) => MutexFree(w) && At(w, b, Locked) && target != w.images[b].alloc
    case Post(b) => At(w, b, Denied)
    case Commit(b, n) => At(w, b, Granted) && n == w.images[b].alloc + w.images[b].allocReq
    case Write(b, pos, d) => At(w, b, Locked) && pos + |d| <= w.images[b].alloc
    case GetFile(b) => MutexFree(w) && At(w, b, Locked) && !w.images[b].storageLocked
    case Pin(b, on) => b in w.images
    case Destroy(b) => MutexFree(w) && At(w, b, Unlocked)
    case Receive => w.mgr.Idle? && w.queue != []
    case Answer => w.mgr.InHand? && w.mgr.msg.Request?
    case BeginWalk => w.mgr.InHand? && w.mgr.msg.MemFreed?
    case WalkNext => w.mgr.Walking? && w.mgr.todo != []
    case EndWalk => w.mgr.Walking? && w.mgr.todo == []
    case SwapIn(b) =>
      && w.mgr.Swapping? && At(w, b, Unlocked)
      && !w.images[b].storageLocked && w.images[b].inFile
      && w.images[b].alloc <= w.budget.hiwat - w.budget.memUsed
    case EndSwap => w.mgr.Swapping?
  }

  function SetPc(w: World, b: Id, pc: Pc): World {
    w.(pc := w.pc[b := pc])
  }

  function SetImage(w: World, b: Id, im: Image): World {
    w.(images := w.images[b := im])
  }

  /** The blob and the counters after a decision on `b`; the answer is for the caller to act on. */
  function Decided(w: World, b: Id): World
    requires b in w.images && Valid(w.images[b])
  {
    var v := Decide(w.budget, w.images[b]);
    var queue := w.queue + if w.images[b].allocReq < 0 then [MemFreed] else [];
    SetImage(w, b, v.image).(budget := v.budget, queue := queue)
  }

  /** A blob is swapped in, whatever its owner is doing. */
  function SwapInAt(w: World, b: Id): World
    requires b in w.images
  {
    SetImage(w, b, SwappedIn(w.images[b])).(budget := w.budget.(
      memUsed := w.budget.memUsed + w.images[b].alloc, diskUsed := w.budget.diskUsed - w.images[b].alloc))
  }

  predicate Grants(w: World, b: Id)
    requires b in w.images && Valid(w.images[b])
  {
    Decide(w.budget, w.images[b]).granted
  }

  /** The request in the manager's hands is decided; if it is denied, its blob joins the waiting list. */
  ghost function Answered(w: World): World
    requires Shape(w) && Mail(w) && w.mgr.InHand? && w.mgr.msg.Request?
  {
    OnlySleepersAreNamed(w);
    var b := w.mgr.msg.id;
    var d := Decided(w, b).(mgr := Idle);
    if Grants(w, b) then SetPc(d, b, Granted) else d.(waiting := d.waiting + [b])
  }

  /** The next waiting request is decided; if it is granted, its blob leaves the list. */
  ghost function WalkedOne(w: World): World
    requires Shape(w) && Mail(w) && w.mgr.Walking? && w.mgr.todo != []
  {
    OnlySleepersAreNamed(w);
    var b := w.mgr.todo[0];
    var cur := |w.waiting| - |w.mgr.todo|;
    var d := Decided(w, b).(mgr := Walking(w.mgr.todo[1..]));
    if Grants(w, b) then SetPc(d, b, Granted).(waiting := w.waiting[..cur] + w.waiting[cur + 1..]) else d
  }

  /** A step of a requester. */
  ghost function Requested(w: World, s: Step): World
    requires Shape(w) && Enabled(w, s)
  {
    match s
    case New(b) => SetPc(SetImage(w, b, FreshImage), b, Unlocked).(blobs := w.blobs + [b])
    case Lock(b) => SetPc(w, b, Locked)
    case Unlock(b) => SetPc(w, b, Unlocked)
    case Ask(b, target) =>
      var asked := SetImage(w, b, w.images[b].(allocReq := target - w.images[b].alloc));
      SetPc(Decided(asked, b), b, if Grants(asked, b) then Granted else Denied)
    case Post(b) => SetPc(w, b, Blocked).(queue := w.queue + [Request(b)])
    case Commit(b, n) => SetPc(SetImage(w, b, Committed(w.images[b], n)), b, Locked)
    case Write(b, pos, d) => SetImage(w, b, Stored(w.images[b], pos, d))
    case GetFile(b) =>
      var (g, im) := SwapOutUnder(w.budget, w.images[b]);
      SetImage(w, b, im).(budget := g)
    case Pin(b, on) => SetImage(w, b, w.images[b].(storageLocked := on))
    case Destroy(b) =>
      var v := Decide(w.budget, w.images[b].(allocReq := 0 - w.images[b].alloc));
      World(v.budget, Remove(w.blobs, b), w.images - {b}, w.pc - {b},
            w.queue + if w.images[b].alloc > 0 then [MemFreed] else [], w.waiting, w.mgr)
    case _ => w
  }

  ghost function Apply(w: World, s: Step): World
    requires Shape(w) && Mail(w) && Enabled(w, s)
  {
    match s
    case Receive => w.(mgr := InHand(w.queue[0]), queue := w.queue[1..])
    case Answer => Answered(w)
    case BeginWalk => w.(mgr := Walking(w.waiting))
    case WalkNext => WalkedOne(w)
    case EndWalk =>
      w.(mgr := if w.budget.memUsed >= w.budget.lowat || w.budget.diskUsed < w.budget.hiwat then Idle else Swapping)
    case SwapIn(b) => SwapInAt(w, b)
    case EndSwap => w.(mgr := Idle)
    case _ => Requested(w, s)
  }

  // ----- the invariant -----

  ghost predicate Shape(w: World) {
    && Distinct(w.blobs)
    && (forall b :: b in w.blobs <==> b in w.images)
    && w.images.Keys == w.pc.Keys
    && (forall b :: b in w.images ==> Valid(w.images[b]))
    && (forall b :: b in w.images && !w.pc[b].Unlocked? && !w.pc[b].Locked? ==> 0 <= w.images[b].alloc + w.images[b].allocReq)
  }

  /** The bytes granted to `b` that are not part of its allocation yet. */
  function Pending(im: Image, pc: Pc): int {
    if pc == Granted then im.allocReq else 0
  }

  function Weight(w: World, b: Id, onDisk: bool): int {
    if b in w.images && b in w.pc then Charge(w.images[b], Pending(w.images[b], w.pc[b]), onDisk) else 0
  }

  function Total(w: World, bs: seq<Id>, onDisk: bool): int {
    if bs == [] then 0 else Weight(w, bs[0], onDisk) + Total(w, bs[1..], onDisk)
  }

  /** Both counters say exactly what is allocated or promised, and memory is never overcommitted. */
  ghost predicate Books(w: World) {
    && w.budget.memUsed == Total(w, w.blobs, false)
    && w.budget.diskUsed == Total(w, w.blobs, true)
    && w.budget.memUsed <= w.budget.memMax < WORD
    && w.budget.hiwat < w.budget.memMax
  }

  /** In how many places the request of `b` is. */
  ghost function Places(w: World, b: Id): nat {
    multiset(w.queue)[Request(b)] + multiset(w.waiting)[b] + (if w.mgr == InHand(Request(b)) then 1 else 0)
  }

  /**
   * The request protocol: a sleeper's request is in exactly one of the queue, the manager's hands and
   * the waiting list; nobody else's is in any; what the walk has still to visit is the end of that list.
   */
  ghost predicate Mail(w: World) {
    && (forall b: Id :: Places(w, b) == if b in w.pc && w.pc[b] == Blocked then 1 else 0)
    && (w.mgr.Walking? ==> |w.mgr.todo| <= |w.waiting| && w.mgr.todo == w.waiting[|w.waiting| - |w.mgr.todo|..])
  }

  ghost predicate Inv(w: World) {
    Shape(w) && Books(w) && Mail(w)
  }

  /** The request in the manager's hands, or next in the walk, belongs to a blob that sleeps. */
  lemma OnlySleepersAreNamed(w: World)
    requires Shape(w) && Mail(w)
    ensures w.mgr.InHand? && w.mgr.msg.Request? ==> At(w, w.mgr.msg.id, Blocked)
    ensures w.mgr.Walking? && w.mgr.todo != [] ==> At(w, w.mgr.todo[0], Blocked)
  {
    if w.mgr.InHand? && w.mgr.msg.Request? {
      assert Places(w, w.mgr.msg.id) >= 1;
    }
    if w.mgr.Walking? && w.mgr.todo != [] {
      assert w.mgr.todo[0] in w.waiting;
      assert Places(w, w.mgr.todo[0]) >= 1;
    }
  }

  function Remove(bs: seq<Id>, b: Id): seq<Id> {
    if bs == [] then [] else if bs[0] == b then bs[1..] else [bs[0]] + Remove(bs[1..], b)
  }

  // ----- sums over the blobs -----

  lemma {:induction false} TotalChange(w: World, v: World, bs: seq<Id>, b: Id, onDisk: bool)
    requires Distinct(bs)
    requires forall x :: x in bs && x != b ==> Weight(w, x, onDisk) == Weight(v, x, onDisk)
    ensures Total(v, bs, onDisk) - Total(w, bs, onDisk) == if b in bs then Weight(v, b, onDisk) - Weight(w, b, onDisk) else 0
  {
    if bs != [] {
      assert bs == [bs[0]] + bs[1..];
      TotalChange(w, v, bs[1..], b, onDisk);
    }
  }

  lemma {:induction false} TotalAppend(w: World, bs: seq<Id>, b: Id, onDisk: bool)
    ensures Total(w, bs + [b], onDisk) == Total(w, bs, onDisk) + Weight(w, b, onDisk)
  {
    if bs == [] {
      assert bs + [b] == [b];
    } else {
      assert (bs + [b])[1..] == bs[1..] + [b];
      TotalAppend(w, bs[1..], b, onDisk);
    }
  }

  lemma {:induction false} RemoveOne(w: World, bs: seq<Id>, b: Id, onDisk: bool)
    requires Distinct(bs) && b in bs
    ensures Distinct(Remove(bs, b)) && forall x :: x in Remove(bs, b) <==> x in bs && x != b
    ensures Total(w, Remove(bs, b), onDisk) == Total(w, bs, onDisk) - Weight(w, b, onDisk)
  {
    assert bs == [bs[0]] + bs[1..];
    if bs[0] != b {
      RemoveOne(w, bs[1..], b, onDisk);
      assert bs[0] !in Remove(bs[1..], b);
    }
  }

  lemma {:induction false} TotalNonNegative(w: World, bs: seq<Id>, onDisk: bool)
    requires Shape(w)
    ensures 0 <= Total(w, bs, onDisk)
  {
    if bs != [] {
      TotalNonNegative(w, bs[1..], onDisk);
    }
  }

  /** `v` differs from `w` in one blob, and not in which blobs there are. */
  ghost predicate OnlyBlob(w: World, v: World, b: Id) {
    && b in w.images && b in w.pc && b in v.images && b in v.pc
    && v.blobs == w.blobs
    && v.images == w.images[b := v.images[b]]
    && v.pc == w.pc[b := v.pc[b]]
  }

  /** A step that touches one blob keeps the books if the counters move as that blob's weight does. */
  lemma OneBlobKeeps(w: World, v: World, b: Id)
    requires Shape(w) && Books(w) && OnlyBlob(w, v, b) && Valid(v.images[b])
    requires !v.pc[b].Unlocked? && !v.pc[b].Locked? ==> 0 <= v.images[b].alloc + v.images[b].allocReq
    requires v.budget == w.budget.(memUsed := v.budget.memUsed, diskUsed := v.budget.diskUsed)
    requires v.budget.memUsed - w.budget.memUsed == Weight(v, b, false) - Weight(w, b, false)
    requires v.budget.diskUsed - w.budget.diskUsed == Weight(v, b, true) - Weight(w, b, true)
    requires v.budget.memUsed <= v.budget.memMax
    ensures Shape(v) && Books(v)
  {
    hide Valid, Weight, Distinct;
    OthersWeigh(w, v, b);
    TotalChange(w, v, w.blobs, b, false);
    TotalChange(w, v, w.blobs, b, true);
  }

  lemma OthersWeigh(w: World, v: World, b: Id)
    requires OnlyBlob(w, v, b)
    ensures forall x :: x != b ==> Weight(w, x, false) == Weight(v, x, false) && Weight(w, x, true) == Weight(v, x, true)
  {
    hide Charge;
  }

  // ----- every step keeps the invariant -----

  /** A decision on `b` followed by any bookkeeping outside the blob itself. */
  lemma DecisionKeeps(w: World, v: World, b: Id)
    requires Shape(w) && Books(w) && OnlyBlob(w, v, b)
    requires w.pc[b] != Granted && 0 <= w.images[b].alloc + w.images[b].allocReq
    requires v.images[b] == Decide(w.budget, w.images[b]).image && v.budget == Decide(w.budget, w.images[b]).budget
    requires v.pc[b] == Granted <==> Grants(w, b)
    ensures Shape(v) && Books(v)
  {
    hide Valid, Decide, Total;
    TotalNonNegative(w, w.blobs, false);
    DecideBalances(w.budget, w.images[b]);
    OneBlobKeeps(w, v, b);
  }

  lemma AddedBlobBooks(w: World, v: World, b: Id)
    requires Shape(w) && Books(w) && b !in w.images
    requires v.budget == w.budget && v.blobs == w.blobs + [b]
    requires v.images == w.images[b := FreshImage] && v.pc == w.pc[b := Unlocked]
    ensures Books(v)
  {
    hide Valid, Fit;
    TotalAppend(v, w.blobs, b, false);
    TotalAppend(v, w.blobs, b, true);
    TotalChange(w, v, w.blobs, b, false);
    TotalChange(w, v, w.blobs, b, true);
  }

  lemma AddedBlobShape(w: World, v: World, b: Id)
    requires Shape(w) && b !in w.images
    requires v.blobs == w.blobs + [b]
    requires v.images == w.images[b := FreshImage] && v.pc == w.pc[b := Unlocked]
    ensures Shape(v)
  {
    assert Valid(FreshImage);
    hide Valid;
  }

  lemma NewKeeps(w: World, b: Id)
    requires Inv(w) && Enabled(w, New(b))
    ensures Shape(Apply(w, New(b))) && Books(Apply(w, New(b)))
  {
    hide Valid, Total, Places;
    AddedBlobShape(w, Apply(w, New(b)), b);
    AddedBlobBooks(w, Apply(w, New(b)), b);
  }

  /** The steps that only move a thread on. */
  lemma RelabelKeeps(w: World, s: Step)
    requires Inv(w) && Enabled(w, s) && (s.Lock? || s.Unlock? || s.Post?)
    ensures Shape(Apply(w, s)) && Books(Apply(w, s))
  {
    hide Valid, Total, Places;
    OneBlobKeeps(w, Apply(w, s), s.b);
  }

  lemma PinKeeps(w: World, b: Id, on: bool)
    requires Inv(w) && Enabled(w, Pin(b, on))
    ensures Shape(Apply(w, Pin(b, on))) && Books(Apply(w, Pin(b, on)))
  {
    hide Valid, Total, Places;
    SettingsAside(w.images[b], w.images[b].allocReq, on);
    OneBlobKeeps(w, Apply(w, Pin(b, on)), b);
  }

  lemma CommitKeeps(w: World, b: Id, n: nat)
    requires Inv(w) && Enabled(w, Commit(b, n))
    ensures Shape(Apply(w, Commit(b, n))) && Books(Apply(w, Commit(b, n)))
  {
    hide Valid, Total, Places, Committed;
    CommitClips(w.images[b], n);
    OneBlobKeeps(w, Apply(w, Commit(b, n)), b);
  }

  lemma WriteKeeps(w: World, b: Id, pos: nat, d: seq<Octet>)
    requires Inv(w) && Enabled(w, Write(b, pos, d))
    ensures Shape(Apply(w, Write(b, pos, d))) && Books(Apply(w, Write(b, pos, d)))
  {
    hide Valid, Total, Places, Stored;
    StoreOverlays(w.images[b], pos, d);
    OneBlobKeeps(w, Apply(w, Write(b, pos, d)), b);
  }

  /** Noting down a request moves no counter. */
  lemma NotingKeeps(w: World, b: Id, req: int)
    requires Shape(w) && Books(w) && At(w, b, Locked)
    ensures var asked := SetImage(w, b, w.images[b].(allocReq := req));
      Shape(asked) && Books(asked)
  {
    hide Valid, Total;
    SettingsAside(w.images[b], req, w.images[b].storageLocked);
    OneBlobKeeps(w, SetImage(w, b, w.images[b].(allocReq := req)), b);
  }

  lemma AskKeeps(w: World, b: Id, target: nat)
    requires Inv(w) && Enabled(w, Ask(b, target))
    ensures Shape(Apply(w, Ask(b, target))) && Books(Apply(w, Ask(b, target)))
  {
    hide Valid, Decide, Total, Mail, Distinct;
    NotingKeeps(w, b, target - w.images[b].alloc);
    var asked := SetImage(w, b, w.images[b].(allocReq := target - w.images[b].alloc));
    AnsweredKeeps(asked, b, Denied);
  }

  /** A thread that is not Granted gets its decision. */
  lemma AnsweredKeeps(w: World, b: Id, otherwise: Pc)
    requires Shape(w) && Books(w) && b in w.images && w.pc[b] != Granted && otherwise != Granted
    requires 0 <= w.images[b].alloc + w.images[b].allocReq
    ensures var v := SetPc(Decided(w, b), b, if Grants(w, b) then Granted else otherwise);
      Shape(v) && Books(v)
  {
    hide Valid, Decide, Total;
    DecisionKeeps(w, SetPc(Decided(w, b), b, if Grants(w, b) then Granted else otherwise), b);
  }

  lemma GetFileKeeps(w: World, b: Id)
    requires Inv(w) && Enabled(w, GetFile(b))
    ensures Shape(Apply(w, GetFile(b))) && Books(Apply(w, GetFile(b)))
  {
    hide Valid, Total, Places;
    SwapOutInvisible(w.images[b]);
    TotalNonNegative(w, w.blobs, false);
    OneBlobKeeps(w, Apply(w, GetFile(b)), b);
  }

  lemma RemovedBlobShape(w: World, v: World, b: Id)
    requires Shape(w) && b in w.images
    requires v.blobs == Remove(w.blobs, b) && v.images == w.images - {b} && v.pc == w.pc - {b}
    ensures Shape(v)
  {
    hide Valid;
    RemoveOne(w, w.blobs, b, false);
  }

  lemma RemovedBlobBooks(w: World, v: World, b: Id)
    requires Shape(w) && Books(w) && At(w, b, Unlocked) && v.blobs == Remove(w.blobs, b)
    requires v.images == w.images - {b} && v.pc == w.pc - {b}
    requires v.budget == w.budget.(memUsed := v.budget.memUsed, diskUsed := v.budget.diskUsed)
    requires v.budget.memUsed == w.budget.memUsed - Weight(w, b, false) <= w.budget.memMax
    requires v.budget.diskUsed == w.budget.diskUsed - Weight(w, b, true)
    ensures Books(v)
  {
    hide Valid, Total, Charge;
    RemoveOne(w, w.blobs, b, false);
    RemoveOne(w, w.blobs, b, true);
    OthersWeighTheSame(w, v, b, false);
    OthersWeighTheSame(w, v, b, true);
  }

  lemma OthersWeighTheSame(w: World, v: World, b: Id, onDisk: bool)
    requires Distinct(v.blobs) && b !in v.blobs
    requires v.images == w.images - {b} && v.pc == w.pc - {b}
    ensures Total(v, v.blobs, onDisk) == Total(w, v.blobs, onDisk)
  {
    hide Charge;
    TotalChange(w, v, v.blobs, b, onDisk);
  }

  lemma DestroyKeeps(w: World, b: Id)
    requires Inv(w) && Enabled(w, Destroy(b))
    ensures Shape(Apply(w, Destroy(b))) && Books(Apply(w, Destroy(b)))
  {
    hide Valid, Decide, Places, Total, Remove;
    SettingsAside(w.images[b], 0 - w.images[b].alloc, w.images[b].storageLocked);
    TotalNonNegative(w, w.blobs, false);
    DecideBalances(w.budget, w.images[b].(allocReq := 0 - w.images[b].alloc));
    RemovedBlobShape(w, Apply(w, Destroy(b)), b);
    RemovedBlobBooks(w, Apply(w, Destroy(b)), b);
  }

  lemma AnswerKeeps(w: World)
    requires Inv(w) && Enabled(w, Answer)
    ensures Shape(Apply(w, Answer)) && Books(Apply(w, Answer))
  {
    hide Valid, Decide, Total;
    OnlySleepersAreNamed(w);
    DecisionKeeps(w, Apply(w, Answer), w.mgr.msg.id);
  }

  lemma WalkNextKeeps(w: World)
    requires Inv(w) && Enabled(w, WalkNext)
    ensures Shape(Apply(w, WalkNext)) && Books(Apply(w, WalkNext))
  {
    hide Valid, Decide, Total;
    OnlySleepersAreNamed(w);
    DecisionKeeps(w, Apply(w, WalkNext), w.mgr.todo[0]);
  }

  lemma SwapInKeeps(w: World, b: Id)
    requires Inv(w) && Enabled(w, SwapIn(b))
    ensures Shape(Apply(w, SwapIn(b))) && Books(Apply(w, SwapIn(b)))
  {
    hide Valid, Total, Places;
    SwapInInvisible(w.images[b]);
    OneBlobKeeps(w, Apply(w, SwapIn(b)), b);
  }

  /** The steps of the manager that touch no blob. */
  lemma BookkeepingKeeps(w: World, s: Step)
    requires Inv(w) && Enabled(w, s) && (s.Receive? || s.BeginWalk? || s.EndWalk? || s.EndSwap?)
    ensures Shape(Apply(w, s)) && Books(Apply(w, s))
  {
    hide Valid, Places, Total;
    BooksDependOn(w, Apply(w, s));
  }

  lemma StepKeepsShapeAndBooks(w: World, s: Step)
    requires Inv(w) && Enabled(w, s)
    ensures Shape(Apply(w, s)) && Books(Apply(w, s))
  {
    hide Apply, Shape, Books, Mail;
    if s.Receive? || s.BeginWalk? || s.EndWalk? || s.EndSwap? {
      BookkeepingKeeps(w, s);
    } else {
      match s
      case New(b) => NewKeeps(w, b);
      case Ask(b, target) => AskKeeps(w, b, target);
      case GetFile(b) => GetFileKeeps(w, b);
      case Destroy(b) => DestroyKeeps(w, b);
      case Lock(_) => RelabelKeeps(w, s);
      case Unlock(_) => RelabelKeeps(w, s);
      case Post(_) => RelabelKeeps(w, s);
      case Pin(b, on) => PinKeeps(w, b, on);
      case Commit(b, n) => CommitKeeps(w, b, n);
      case Write(b, pos, d) => WriteKeeps(w, b, pos, d);
      case Answer => AnswerKeeps(w);
      case WalkNext => WalkNextKeeps(w);
      case SwapIn(b) => SwapInKeeps(w, b);
    }
  }

  lemma BooksDependOn(w: World, v: World)
    requires Shape(w) && Books(w)
    requires v.budget == w.budget && v.blobs == w.blobs && v.images == w.images && v.pc == w.pc
    ensures Books(v)
  {
    if w.blobs != [] {
      TotalChange(w, v, w.blobs, w.blobs[0], false);
      TotalChange(w, v, w.blobs, w.blobs[0], true);
    }
  }

  // ----- requests are neither lost nor answered twice -----

  /** Nobody starts or stops sleeping, and nothing but notices of freed memory is posted. */
  lemma MailIgnores(w: World, v: World)
    requires Mail(w)
    requires forall b :: (b in w.pc && w.pc[b] == Blocked) <==> (b in v.pc && v.pc[b] == Blocked)
    requires v.waiting == w.waiting && v.mgr == w.mgr
    requires v.queue == w.queue || v.queue == w.queue + [MemFreed]
    ensures Mail(v)
  {
    forall b: Id
      ensures Places(v, b) == Places(w, b)
    {
      assert multiset(v.queue)[Request(b)] == multiset(w.queue)[Request(b)];
    }
  }

  lemma OwnerStepKeepsMail(w: World, s: Step)
    requires Inv(w) && Enabled(w, s)
    requires s.New? || s.Lock? || s.Unlock? || s.Ask? || s.Commit? || s.Write? || s.GetFile? || s.Pin? || s.Destroy?
    ensures Mail(Apply(w, s))
  {
    hide Valid, Decide, Committed, Stored, Books, Mail, Distinct, Remove;
    assert w.queue + [] == w.queue;
    MailIgnores(w, Apply(w, s));
  }

  lemma PostKeepsMail(w: World, b: Id)
    requires Inv(w) && Enabled(w, Post(b))
    ensures Mail(Apply(w, Post(b)))
  {
    hide Valid, Books;
    var v := Apply(w, Post(b));
    forall x: Id
      ensures Places(v, x) == if x in v.pc && v.pc[x] == Blocked then 1 else 0
    {
      assert multiset(v.queue)[Request(x)] == multiset(w.queue)[Request(x)] + if x == b then 1 else 0;
      assert Places(w, x) == if x in w.pc && w.pc[x] == Blocked then 1 else 0;
    }
  }

  lemma ReceiveKeepsMail(w: World)
    requires Inv(w) && Enabled(w, Receive)
    ensures Mail(Apply(w, Receive))
  {
    hide Valid, Books;
    var v := Apply(w, Receive);
    assert w.queue == [w.queue[0]] + w.queue[1..];
    forall x: Id
      ensures Places(v, x) == Places(w, x)
    {
    }
  }

  lemma AnswerKeepsMail(w: World)
    requires Inv(w) && Enabled(w, Answer)
    ensures Mail(Apply(w, Answer))
  {
    hide Valid, Decide, Books, Mail, Distinct;
    OnlySleepersAreNamed(w);
    assert w.queue + [] == w.queue;
    MailAnswered(w, Apply(w, Answer), w.mgr.msg.id, Grants(w, w.mgr.msg.id));
  }

  /** The request in the manager's hands is granted, or goes to the end of the waiting list. */
  lemma MailAnswered(w: World, v: World, b: Id, granted: bool)
    requires Mail(w) && w.mgr == InHand(Request(b)) && v.mgr == Idle && b in w.pc && w.pc[b] == Blocked
    requires v.queue == w.queue || v.queue == w.queue + [MemFreed]
    requires v.pc == if granted then w.pc[b := Granted] else w.pc
    requires v.waiting == if granted then w.waiting else w.waiting + [b]
    ensures Mail(v)
  {
    forall x: Id
      ensures Places(v, x) == if x in v.pc && v.pc[x] == Blocked then 1 else 0
    {
      assert Places(w, x) == if x in w.pc && w.pc[x] == Blocked then 1 else 0;
      assert multiset(v.queue)[Request(x)] == multiset(w.queue)[Request(x)];
    }
  }

  /** The next blob of the walk is answered and unlinked, or stays where it is. */
  lemma WalkedKeepsMail(w: World, v: World, granted: bool)
    requires Mail(w) && w.mgr.Walking? && w.mgr.todo != [] && v.mgr == Walking(w.mgr.todo[1..])
    requires v.queue == w.queue || v.queue == w.queue + [MemFreed]
    requires w.mgr.todo[0] in w.pc && v.pc == if granted then w.pc[w.mgr.todo[0] := Granted] else w.pc
    requires var cur := |w.waiting| - |w.mgr.todo|;
      v.waiting == if granted then w.waiting[..cur] + w.waiting[cur + 1..] else w.waiting
    ensures Mail(v)
  {
    var cur := |w.waiting| - |w.mgr.todo|;
    var b := w.mgr.todo[0];
    Unlinked(w.waiting, cur);
    assert w.mgr.todo[1..] == w.waiting[cur + 1..];
    TodoIsLeft(v, cur, granted);
    forall x: Id
      ensures Places(v, x) == if x in v.pc && v.pc[x] == Blocked then 1 else 0
    {
      assert Places(w, x) == if x in w.pc && w.pc[x] == Blocked then 1 else 0;
      assert Places(w, b) == if b in w.pc && w.pc[b] == Blocked then 1 else 0;
      RequestsSame(w.queue, v.queue, x);
    }
  }

  lemma Unlinked(s: seq<Id>, cur: nat)
    requires cur < |s|
    ensures multiset(s)[s[cur]] >= 1
    ensures forall x :: multiset(s[..cur] + s[cur + 1..])[x] == multiset(s)[x] - if x == s[cur] then 1 else 0
  {
    assert s == s[..cur] + [s[cur]] + s[cur + 1..];
  }

  lemma RequestsSame(queue: seq<Message>, after: seq<Message>, x: Id)
    requires after == queue || after == queue + [MemFreed]
    ensures multiset(after)[Request(x)] == multiset(queue)[Request(x)]
  {
  }

  lemma TodoIsLeft(v: World, cur: nat, granted: bool)
    requires v.mgr.Walking? && cur <= |v.waiting|
    requires v.mgr.todo == if granted then v.waiting[cur..] else if cur < |v.waiting| then v.waiting[cur + 1..] else []
    ensures |v.mgr.todo| <= |v.waiting| && v.mgr.todo == v.waiting[|v.waiting| - |v.mgr.todo|..]
  {
  }

  lemma WalkNextKeepsMail(w: World)
    requires Inv(w) && Enabled(w, WalkNext)
    ensures Mail(Apply(w, WalkNext))
  {
    hide Valid, Decide, Books, Places;
    OnlySleepersAreNamed(w);
    assert w.queue + [] == w.queue;
    WalkedKeepsMail(w, Apply(w, WalkNext), Grants(w, w.mgr.todo[0]));
  }

  lemma HandOverKeepsMail(w: World, s: Step)
    requires Inv(w) && Enabled(w, s) && (s.BeginWalk? || s.EndWalk? || s.EndSwap? || s.SwapIn?)
    ensures Mail(Apply(w, s))
  {
    hide Valid, Books, SwappedIn, Mail, Distinct;
    assert w.waiting == w.waiting[0..];
    MailHandedOver(w, Apply(w, s));
  }

  lemma MailHandedOver(w: World, v: World)
    requires Mail(w) && v.queue == w.queue && v.waiting == w.waiting && v.pc == w.pc
    requires !(w.mgr.InHand? && w.mgr.msg.Request?) && !v.mgr.InHand?
    requires v.mgr.Walking? ==> v.mgr.todo == w.waiting
    ensures Mail(v)
  {
    forall x: Id
      ensures Places(v, x) == Places(w, x)
    {
    }
    assert w.waiting == w.waiting[0..];
  }

  lemma StepKeepsMail(w: World, s: Step)
    requires Inv(w) && Enabled(w, s)
    ensures Mail(Apply(w, s))
  {
    hide Shape, Books, Mail, Apply;
    match s
    case Post(b) => PostKeepsMail(w, b);
    case Receive => ReceiveKeepsMail(w);
    case Answer => AnswerKeepsMail(w);
    case WalkNext => WalkNextKeepsMail(w);
    case BeginWalk => HandOverKeepsMail(w, s);
    case EndWalk => HandOverKeepsMail(w, s);
    case EndSwap => HandOverKeepsMail(w, s);
    case SwapIn(_) => HandOverKeepsMail(w, s);
    case _ => OwnerStepKeepsMail(w, s);
  }

  // ----- every reachable state -----

  /** Every step of every thread keeps the invariant. */
  lemma StepKeepsInv(w: World, s: Step)
    requires Inv(w) && Enabled(w, s)
    ensures Inv(Apply(w, s))
  {
    StepKeepsShapeAndBooks(w, s);
    StepKeepsMail(w, s);
  }

  ghost predicate Possible(w: World, run: seq<Step>)
    requires Inv(w)
    decreases |run|
  {
    run != [] ==> Enabled(w, run[0]) && (StepKeepsInv(w, run[0]); Possible(Apply(w, run[0]), run[1..]))
  }

  /** Whatever the interleaving, the invariant holds where a run ends. */
  ghost function After(w: World, run: seq<Step>): (v: World)
    requires Inv(w) && Possible(w, run)
    ensures Inv(v)
    decreases |run|
  {
    if run == [] then w
    else
      StepKeepsInv(w, run[0]);
      After(Apply(w, run[0]), run[1..])
  }

  /** The counters and limits a new system starts with. */
  ghost predicate FreshBudget(g: Budget)
    ensures FreshBudget(g) ==> Inv(Initial(g))
  {
    g.memUsed == g.diskUsed == 0 && 0 <= g.memMax < WORD && g.hiwat < g.memMax
  }

  lemma NewSystemIsFresh(memMax: int, diskMax: int, low: int, high: int)
    requires 1 <= memMax < WORD
    ensures FreshBudget(NewBudget(memMax, diskMax, low, high))
  {
  }

  // ----- the blobs refine plain byte strings -----

  /** What readers may see: one byte string per blob. */
  ghost function View(w: World): map<Id, seq<Octet>> {
    map b | b in w.images :: Contents(w.images[b])
  }

  /** The byte strings know nothing of memory, files, budgets, locks or messages. */
  function PlainStep(view: map<Id, seq<Octet>>, s: Step): map<Id, seq<Octet>> {
    match s
    case New(b) => view[b := []]
    case Commit(b, n) => if b in view then view[b := Clip(view[b], n)] else view
    case Write(b, pos, d) => if b in view then view[b := Overlay(view[b], pos, d)] else view
    case Destroy(b) => view - {b}
    case _ => view
  }

  function PlainRun(view: map<Id, seq<Octet>>, run: seq<Step>): map<Id, seq<Octet>>
    decreases |run|
  {
    if run == [] then view else PlainRun(PlainStep(view, run[0]), run[1..])
  }

  ghost predicate AllReadable(w: World) {
    forall b :: b in w.images ==> Readable(w.images[b])
  }

  /** The one thing that makes a blob unreadable: adding nothing beyond the end of its swap file. */
  ghost predicate Truncating(w: World, s: Step) {
    s.Write? && s.d == [] && s.b in w.images && w.images[s.b].inFile && |w.images[s.b].file| < s.pos
  }

  lemma OneBlobView(w: World, v: World, b: Id)
    requires b in w.images && b in v.images && v.images == w.images[b := v.images[b]]
    ensures View(v) == View(w)[b := Contents(v.images[b])]
    ensures AllReadable(w) ==> (AllReadable(v) <==> Readable(v.images[b]))
  {
    hide Contents, Readable;
  }

  /** A step that leaves the bytes of `b` alone, and leaves them readable, leaves the view alone. */
  lemma QuietOn(w: World, v: World, b: Id)
    requires b in w.images && b in v.images && v.images == w.images[b := v.images[b]]
    requires Contents(v.images[b]) == Contents(w.images[b]) && (Readable(w.images[b]) ==> Readable(v.images[b]))
    ensures View(v) == View(w) && (AllReadable(w) ==> AllReadable(v))
  {
    hide Contents, Readable;
    OneBlobView(w, v, b);
    assert View(w)[b := Contents(w.images[b])] == View(w);
  }

  lemma CommitRefines(w: World, b: Id, n: nat)
    requires Inv(w) && Enabled(w, Commit(b, n))
    ensures View(Apply(w, Commit(b, n))) == PlainStep(View(w), Commit(b, n))
    ensures AllReadable(w) ==> AllReadable(Apply(w, Commit(b, n)))
  {
    hide Valid, Contents, Readable, Clip, Books, Committed, Places;
    CommitClips(w.images[b], n);
    OneBlobView(w, Apply(w, Commit(b, n)), b);
  }

  lemma WriteRefines(w: World, b: Id, pos: nat, d: seq<Octet>)
    requires Inv(w) && Enabled(w, Write(b, pos, d))
    ensures View(Apply(w, Write(b, pos, d))) == PlainStep(View(w), Write(b, pos, d))
    ensures AllReadable(w) ==> (AllReadable(Apply(w, Write(b, pos, d))) <==> !Truncating(w, Write(b, pos, d)))
  {
    hide Valid, Contents, Readable, Overlay, Books, Stored, Places;
    StoreOverlays(w.images[b], pos, d);
    OneBlobView(w, Apply(w, Write(b, pos, d)), b);
  }

  lemma AddedBlobView(w: World, v: World, b: Id)
    requires b !in w.images && v.images == w.images[b := FreshImage]
    ensures View(v) == View(w)[b := []] && (AllReadable(w) ==> AllReadable(v))
  {
    assert Contents(FreshImage) == [] && Readable(FreshImage);
    hide Contents, Readable;
  }

  lemma NewRefines(w: World, b: Id)
    requires Inv(w) && Enabled(w, New(b))
    ensures View(Apply(w, New(b))) == View(w)[b := []] && (AllReadable(w) ==> AllReadable(Apply(w, New(b))))
  {
    hide Valid, Contents, Readable, Books, Places, View, AllReadable;
    AddedBlobView(w, Apply(w, New(b)), b);
  }

  lemma DestroyRefines(w: World, b: Id)
    requires Inv(w) && Enabled(w, Destroy(b))
    ensures View(Apply(w, Destroy(b))) == View(w) - {b} && (AllReadable(w) ==> AllReadable(Apply(w, Destroy(b))))
  {
    hide Valid, Contents, Readable, Books, Places, Decide;
  }

  /** A decision may swap a blob out, and nobody sees it. */
  lemma DecideInvisible(g: Budget, im: Image, req: int)
    requires Valid(im)
    ensures Valid(im.(allocReq := req))
    ensures var om := Decide(g, im.(allocReq := req)).image;
      Contents(om) == Contents(im) && (Readable(im) ==> Readable(om))
  {
    hide Contents, Valid;
    SettingsAside(im, req, im.storageLocked);
    SwapOutInvisible(im.(allocReq := req));
  }

  lemma AskRefines(w: World, b: Id, target: nat)
    requires Inv(w) && Enabled(w, Ask(b, target))
    ensures View(Apply(w, Ask(b, target))) == View(w)
    ensures AllReadable(w) ==> AllReadable(Apply(w, Ask(b, target)))
  {
    hide Contents, Readable, Decide, Books, Places, Valid;
    DecideInvisible(w.budget, w.images[b], target - w.images[b].alloc);
    QuietOn(w, Apply(w, Ask(b, target)), b);
  }

  /** Everything else, on either side, is invisible. */
  lemma QuietStepRefines(w: World, s: Step)
    requires Inv(w) && Enabled(w, s)
    requires s.Pin? || s.GetFile? || s.Answer? || s.WalkNext? || s.SwapIn?
    ensures View(Apply(w, s)) == View(w) && (AllReadable(w) ==> AllReadable(Apply(w, s)))
  {
    hide Contents, Readable, Decide, Books, Places, Valid, SwappedIn, SwappedOut;
    OnlySleepersAreNamed(w);
    var b := if s.Answer? then w.mgr.msg.id else if s.WalkNext? then w.mgr.todo[0] else s.b;
    var im := w.images[b];
    if s.Pin? {
      SettingsAside(im, im.allocReq, s.on);
    } else if s.GetFile? {
      SwapOutInvisible(im);
    } else if s.SwapIn? {
      SwapInInvisible(im);
    } else {
      DecideInvisible(w.budget, im, im.allocReq);
      assert im.(allocReq := im.allocReq) == im;
    }
    QuietOn(w, Apply(w, s), b);
  }

  /**
   * Each step changes the byte strings as the plain step says, so swapping, asking, waiting and
   * answering are invisible; and a state in which every blob can be read leads to another such state
   * unless nothing is added beyond the end of a swap file.
   */
  lemma StepRefines(w: World, s: Step)
    requires Inv(w) && Enabled(w, s)
    ensures View(Apply(w, s)) == PlainStep(View(w), s)
    ensures AllReadable(w) ==> (AllReadable(Apply(w, s)) <==> !Truncating(w, s))
  {
    if s.Lock? || s.Unlock? || s.Post? || s.Receive? || s.BeginWalk? || s.EndWalk? || s.EndSwap? {
      hide Contents, Readable, Books, Places, Valid;
      assert Apply(w, s).images == w.images;
    } else {
      hide Apply, Shape, Books, Mail, View, AllReadable;
      match s
      case New(b) => NewRefines(w, b);
      case Ask(b, target) => AskRefines(w, b, target);
      case Commit(b, n) => CommitRefines(w, b, n);
      case Write(b, pos, d) => WriteRefines(w, b, pos, d);
      case Destroy(b) => DestroyRefines(w, b);
      case _ => QuietStepRefines(w, s);
    }
  }

  ghost predicate NeverTruncating(w: World, run: seq<Step>)
    requires Inv(w) && Possible(w, run)
    decreases |run|
  {
    run != [] ==>
      && !Truncating(w, run[0])
      && (StepKeepsInv(w, run[0]); NeverTruncating(Apply(w, run[0]), run[1..]))
  }

  lemma {:induction false} RunRefines(w: World, run: seq<Step>)
    requires Inv(w) && Possible(w, run)
    ensures View(After(w, run)) == PlainRun(View(w), run)
    ensures AllReadable(w) && NeverTruncating(w, run) ==> AllReadable(After(w, run))
    decreases |run|
  {
    if run != [] {
      StepKeepsInv(w, run[0]);
      hide Inv, Apply, View, AllReadable, Truncating;
      StepRefines(w, run[0]);
      RunRefines(Apply(w, run[0]), run[1..]);
    }
  }

  /**
   * The counters are exact in every reachable state, whoever is in the middle of what: each is the sum
   * of the allocations on its side plus what was promised there and not yet taken; and memory is never
   * overcommitted.
   */
  lemma CountersAreExact(g: Budget, run: seq<Step>)
    requires FreshBudget(g) && Possible(Initial(g), run)
    ensures var w := After(Initial(g), run);
      && w.budget.memUsed == Total(w, w.blobs, false) <= w.budget.memMax
      && w.budget.diskUsed == Total(w, w.blobs, true)
  {
  }

  lemma OtherStepsWakeNobody(w: World, s: Step, b: Id)
    requires Inv(w) && Enabled(w, s) && At(w, b, Blocked) && !s.Answer? && !s.WalkNext?
    ensures b in Apply(w, s).pc && Apply(w, s).pc[b] == Blocked
  {
    hide Valid, Decide, Books, Committed, Stored, SwapOutUnder, SwappedIn, Mail, Remove, Distinct;
  }

  lemma AnswersWakeOnlyWhenCharged(w: World, s: Step, b: Id)
    requires Inv(w) && Enabled(w, s) && At(w, b, Blocked) && (s.Answer? || s.WalkNext?)
    ensures b in Apply(w, s).pc && Apply(w, s).pc[b] != Blocked ==>
      Apply(w, s).pc[b] == Granted && Grants(w, b) && Apply(w, s).budget == Decide(w.budget, w.images[b]).budget
    ensures b in Apply(w, s).pc
  {
    hide Valid, Decide, Books, Mail, Distinct;
    OnlySleepersAreNamed(w);
  }

  /**
   * A sleeper is woken only by a grant, in the same step in which its bytes are charged; until then its
   * request is in exactly one place.
   */
  lemma SleepersWakeOnlyWhenCharged(w: World, s: Step, b: Id)
    requires Inv(w) && Enabled(w, s) && At(w, b, Blocked)
    ensures Places(w, b) == 1
    ensures var v := Apply(w, s);
      && b in v.pc
      && (v.pc[b] == Blocked ||
          (v.pc[b] == Granted && Grants(w, b) && v.budget == Decide(w.budget, w.images[b]).budget))
  {
    hide Apply, Valid, Decide, Books, Shape;
    if s.Answer? || s.WalkNext? {
      AnswersWakeOnlyWhenCharged(w, s, b);
    } else {
      OtherStepsWakeNobody(w, s, b);
    }
  }

  lemma SwappedInWeighs(w: World, b: Id)
    requires b in w.images && b in w.pc && Valid(w.images[b]) && w.images[b].inFile
    ensures var v, pending := SwapInAt(w, b), Pending(w.images[b], w.pc[b]);
      && Weight(v, b, false) - Weight(w, b, false) == w.images[b].alloc + pending
      && Weight(v, b, true) - Weight(w, b, true) == -(w.images[b].alloc + pending)
      && forall x :: x != b ==>
           Weight(v, x, false) == Weight(w, x, false) && Weight(v, x, true) == Weight(w, x, true)
  {
    SwapInInvisible(w.images[b]);
    assert !SwappedIn(w.images[b]).inFile;
    hide Valid, SwappedIn;
  }

  /**
   * Why the warning on z_blob_alloc demands the lock: when a blob is swapped in whatever its owner is doing,
   * the books are wrong afterwards exactly if a grant that is not zero is still to be taken.
   */
  lemma SwapInUnderAGrantBreaksTheBooks(w: World, b: Id)
    requires Inv(w) && b in w.images && w.images[b].inFile
    requires w.images[b].alloc <= w.budget.hiwat - w.budget.memUsed
    ensures Books(SwapInAt(w, b)) <==> Pending(w.images[b], w.pc[b]) == 0
  {
    hide Valid, SwappedIn, Places;
    var v := SwapInAt(w, b);
    SwappedInWeighs(w, b);
    hide Weight;
    TotalChange(w, v, w.blobs, b, false);
    TotalChange(w, v, w.blobs, b, true);
  }
}
