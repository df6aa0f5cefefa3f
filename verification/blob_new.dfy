/**
 * What z_blob_new with an initial size does to the protocol of src/blob.c: it asks for space without
 * holding the lock of the new blob, so the management thread, which only tries the lock, may swap the
 * blob in at any moment.
 */
module BlobNew {
  import opened BlobImage
  import opened BlobProtocol
  import opened BlobStore
  import opened Sequences

  /** `inNew`: blobs whose z_blob_new has begun to ask; nobody holds their locks. */
  datatype System = System(world: World, inNew: set<Id>)

  datatype Move =
    | Usual(step: Step)
    | AskInNew(b: Id, target: nat)   // the call of z_blob_alloc in z_blob_new
    | SwapInAnyway(b: Id)            // the management thread gets the lock that z_blob_new does not hold

  /** The blob a requester's step is about. */
  function About(s: Step): set<Id> {
    match s
    case New(b) => {b}
    case Lock(b) => {b}
    case Unlock(b) => {b}
    case Ask(b, _) => {b}
    case Write(b, _, _) => {b}
    case GetFile(b) => {b}
    case Pin(b, _) => {b}
    case Destroy(b) => {b}
    case _ => {}
  }

  /** While z_blob_new is at work nobody else knows the blob; the step that gives up the lock stands for its return. */
  ghost predicate Can(y: System, m: Move)
    requires Shape(y.world)
  {
    var w := y.world;
    match m
    case Usual(s) => Enabled(w, s) && (About(s) !! y.inNew || s.Unlock?)
    case AskInNew(b, target) => MutexFree(w) && At(w, b, Unlocked) && w.images[b] == FreshImage && 0 < target
    case SwapInAnyway(b) =>
      && w.mgr.Swapping? && b in y.inNew && b in w.images
      && !w.images[b].storageLocked && w.images[b].inFile
      && w.images[b].alloc <= w.budget.hiwat - w.budget.memUsed
  }

  ghost function Do(y: System, m: Move): System
    requires Shape(y.world) && Mail(y.world) && Can(y, m)
  {
    var w := y.world;
    match m
    case Usual(s) => System(Apply(w, s), if s.Unlock? then y.inNew - {s.b} else y.inNew)
    case AskInNew(b, target) =>
      var asked := SetImage(w, b, w.images[b].(allocReq := target));
      System(SetPc(Decided(asked, b), b, if Grants(asked, b) then Granted else Denied), y.inNew + {b})
    case SwapInAnyway(b) => System(SwapInAt(w, b), y.inNew)
  }

  /** Asking in z_blob_new is asking with the lock held, as far as counters and requests are concerned. */
  lemma AskInNewKeepsInv(y: System, b: Id, target: nat)
    requires Inv(y.world) && Can(y, AskInNew(b, target))
    ensures Inv(Do(y, AskInNew(b, target)).world)
  {
    var w := y.world;
    StepKeepsInv(w, Lock(b));
    AskAfterLock(w, b, target, Apply(w, Lock(b)));
    StepKeepsInv(Apply(w, Lock(b)), Ask(b, target));
  }

  lemma AskAfterLock(w: World, b: Id, target: nat, locked: World)
    requires Inv(w) && Can(System(w, {}), AskInNew(b, target)) && Inv(locked) && locked == SetPc(w, b, Locked)
    ensures Enabled(locked, Ask(b, target))
    ensures Apply(locked, Ask(b, target)) == Do(System(w, {}), AskInNew(b, target)).world
  {
    hide Valid, Decide, Books, Places, Distinct;
    SettingsAside(w.images[b], target, w.images[b].storageLocked);
    var asked := SetImage(w, b, w.images[b].(allocReq := target));
    assert SetImage(locked, b, w.images[b].(allocReq := target)).pc == locked.pc;
    var d := Decided(asked, b);
    assert d.pc[b := Locked][b := Granted] == d.pc[b := Granted];
    assert d.pc[b := Locked][b := Denied] == d.pc[b := Denied];
  }

  lemma SwapInAnywayKeepsMail(w: World, b: Id)
    requires Mail(w) && b in w.images
    ensures Mail(SwapInAt(w, b))
  {
    hide SwappedIn;
    assert forall x: Id :: Places(SwapInAt(w, b), x) == Places(w, x);
  }

  lemma SwapInAnywayKeepsShape(w: World, b: Id)
    requires Shape(w) && b in w.images && w.images[b].inFile
    ensures Shape(SwapInAt(w, b))
  {
    hide Valid, SwappedIn, Distinct;
    SwapInInvisible(w.images[b]);
  }

  /** The management thread swaps in a new blob that has been granted bytes which it has not taken yet. */
  ghost predicate Disturbs(y: System, m: Move)
    requires Shape(y.world) && Can(y, m)
  {
    m.SwapInAnyway? && Pending(y.world.images[m.b], y.world.pc[m.b]) != 0
  }

  /** Exactly this breaks the invariant; nothing else in z_blob_new or any other thread does. */
  lemma MoveKeepsInv(y: System, m: Move)
    requires Inv(y.world) && Can(y, m)
    ensures Inv(Do(y, m).world) <==> !Disturbs(y, m)
  {
    match m
    case Usual(s) => StepKeepsInv(y.world, s);
    case AskInNew(b, target) => AskInNewKeepsInv(y, b, target);
    case SwapInAnyway(b) =>
      SwapInAnywayKeepsMail(y.world, b);
      SwapInAnywayKeepsShape(y.world, b);
      SwapInUnderAGrantBreaksTheBooks(y.world, b);
  }

  // ----- a run that ends with wrong books -----

  /** The moves take `y` to `end`. */
  ghost predicate Leads(y: System, moves: seq<Move>, end: System)
    decreases |moves|
  {
    if moves == [] then y == end
    else Shape(y.world) && Mail(y.world) && Can(y, moves[0]) && Leads(Do(y, moves[0]), moves[1..], end)
  }

  function Then(m: Move, rest: seq<Move>): seq<Move> {
    [m] + rest
  }

  lemma First(y: System, m: Move, next: System, rest: seq<Move>, end: System)
    requires Shape(y.world) && Mail(y.world) && Can(y, m) && Do(y, m) == next && Leads(next, rest, end)
    ensures Leads(y, Then(m, rest), end)
  {
    hide Shape, Mail, Can, Do;
    assert Then(m, rest)[1..] == rest && Then(m, rest)[0] == m;
  }

  /** Two bytes of memory, and swapping in whenever memory is empty and the disk is not. */
  const SMALL := Budget(2, 0, 100, 0, 1, 1)

  const ASKING := Image(0, 0, false, [], [], false, 2)
  const HOLDING := Image(0, 2, false, [0, 0], [], false, 2)
  const PROMISED := Image(0, 0, true, [], [], false, 2)

  /** The system with a blob 1 or with none. */
  function Alone(used: int, im: Image, pc: Pc): World {
    World(SMALL.(memUsed := used), [1], map[1 := im], map[1 := pc], [], [], Manager.Idle)
  }

  /** After blob 1 has been destroyed, with blob 2. */
  function Left(disk: int, im: Image, pc: Pc, queue: seq<Message>, mgr: Manager): World {
    World(SMALL.(diskUsed := disk), [2], map[2 := im], map[2 := pc], queue, [], mgr)
  }

  /** With both. */
  function Both(disk: int, im: Image, pc: Pc): World {
    World(SMALL.(memUsed := 2, diskUsed := disk), [1, 2], map[1 := HOLDING, 2 := im], map[1 := Unlocked, 2 := pc],
      [], [], Manager.Idle)
  }

  ghost predicate Goes(w: World, s: Step, v: World) {
    Shape(w) && Mail(w) && Enabled(w, s) && Apply(w, s) == v
  }

  lemma GoesOn(w: World, s: Step, v: World)
    requires Inv(w) && Goes(w, s, v)
    ensures Inv(v)
  {
    StepKeepsInv(w, s);
  }

  lemma FirstUsual(w: World, s: Step, v: World, inNew: set<Id>, rest: seq<Move>, end: System)
    requires Goes(w, s, v) && About(s) !! inNew && Leads(System(v, inNew), rest, end)
    ensures Leads(System(w, inNew), Then(Usual(s), rest), end)
  {
    hide Enabled, Apply, Shape, Mail, Leads;
    assert s.Unlock? ==> inNew - {s.b} == inNew;
    First(System(w, inNew), Usual(s), System(v, inNew), rest, end);
  }

  lemma InvHas(w: World)
    requires Inv(w)
    ensures Shape(w) && Mail(w)
  {
    hide Shape, Mail, Books;
  }

  /** What the images become. */
  lemma ImagesAre()
    ensures Valid(FreshImage) && Valid(ASKING) && Valid(HOLDING) && Valid(PROMISED)
    ensures Committed(ASKING, 2) == HOLDING && SwappedOut(ASKING) == PROMISED && SwappedIn(PROMISED) == ASKING
  {
  }

  lemma FitsInMemory()
    ensures Valid(ASKING) && Decide(SMALL, ASKING) == Verdict(SMALL.(memUsed := 2), ASKING, true)
  {
    hide SwapOutUnder;
    BelowTheWord(2);
  }

  lemma BelowTheWord(n: nat)
    requires n < WORD
    ensures n % WORD == n
  {
  }

  lemma FitsOnDisk()
    ensures Valid(ASKING)
    ensures var g := SMALL.(memUsed := 2); Decide(g, ASKING) == Verdict(g.(diskUsed := 2), PROMISED, true)
  {
    ImagesAre();
    hide SwappedOut;
  }

  const GIVING := HOLDING.(allocReq := -2)

  lemma GivesBack()
    ensures var g := SMALL.(memUsed := 2, diskUsed := 2);
      Valid(GIVING) && Decide(g, GIVING) == Verdict(SMALL.(diskUsed := 2), GIVING, true)
    ensures Remove([1, 2], 1) == [2]
  {
  }

  lemma NewGoes()
    requires Inv(Initial(SMALL))
    ensures Goes(Initial(SMALL), New(1), Alone(0, FreshImage, Unlocked))
  {
    hide Valid, Books;
  }

  lemma LockGoes()
    requires Inv(Alone(0, FreshImage, Unlocked))
    ensures Goes(Alone(0, FreshImage, Unlocked), Lock(1), Alone(0, FreshImage, Locked))
  {
    hide Valid, Books;
  }

  lemma AskGoes()
    requires Inv(Alone(0, FreshImage, Locked))
    ensures Goes(Alone(0, FreshImage, Locked), Ask(1, 2), Alone(2, ASKING, Granted))
  {
    hide Decide, Books, Valid, Places;
    FitsInMemory();
  }

  lemma CommitGoes()
    requires Inv(Alone(2, ASKING, Granted))
    ensures Goes(Alone(2, ASKING, Granted), Commit(1, 2), Alone(2, HOLDING, Locked))
  {
    hide Committed, Valid, Books, Places;
    ImagesAre();
  }

  lemma UnlockGoes()
    requires Inv(Alone(2, HOLDING, Locked))
    ensures Goes(Alone(2, HOLDING, Locked), Unlock(1), Alone(2, HOLDING, Unlocked))
  {
    hide Valid, Books;
  }

  lemma NewTwoGoes()
    requires Inv(Alone(2, HOLDING, Unlocked))
    ensures Goes(Alone(2, HOLDING, Unlocked), New(2), Both(0, FreshImage, Unlocked))
  {
    hide Valid, Books;
  }

  lemma AskInNewGoes()
    requires Inv(Both(0, FreshImage, Unlocked))
    ensures var y := System(Both(0, FreshImage, Unlocked), {});
      Can(y, AskInNew(2, 2)) && Do(y, AskInNew(2, 2)) == System(Both(2, PROMISED, Granted), {2})
  {
    hide Decide, Books, Mail, Valid, Distinct;
    FitsOnDisk();
  }

  lemma DestroyGoes()
    requires Inv(Both(2, PROMISED, Granted))
    ensures Goes(Both(2, PROMISED, Granted), Destroy(1), Left(2, PROMISED, Granted, [MemFreed], Manager.Idle))
  {
    hide Decide, Books, Mail, Distinct, Remove, Valid;
    InvHas(Both(2, PROMISED, Granted));
    GivesBack();
    assert map[1 := HOLDING, 2 := PROMISED] - {1} == map[2 := PROMISED];
    assert map[1 := Unlocked, 2 := Granted] - {1} == map[2 := Granted];
  }

  lemma WalkGoes(w: World, s: Step, v: World)
    requires w == Left(2, PROMISED, Granted, w.queue, w.mgr) && Inv(w)
    requires match s
      case Receive => w.queue == [MemFreed] && w.mgr.Idle? && v == w.(queue := [], mgr := InHand(MemFreed))
      case BeginWalk => w.mgr == InHand(MemFreed) && v == w.(mgr := Walking([]))
      case EndWalk => w.mgr == Walking([]) && v == w.(mgr := Swapping)
      case _ => false
    ensures Goes(w, s, v)
  {
    hide Valid, Books, Places;
  }

  lemma SwapInGoes()
    requires Shape(FREED_3) && Mail(FREED_3)
    ensures Can(System(FREED_3, {2}), SwapInAnyway(2))
    ensures Do(System(FREED_3, {2}), SwapInAnyway(2)) == System(Left(2, ASKING, Granted, [], Swapping), {2})
    ensures Shape(Left(2, ASKING, Granted, [], Swapping)) && Mail(Left(2, ASKING, Granted, [], Swapping))
  {
    hide Inv, SwappedIn, Mail, Shape, Valid;
    ImagesAre();
    SwapInAnywayKeepsMail(FREED_3, 2);
    SwapInAnywayKeepsShape(FREED_3, 2);
  }

  lemma EndSwapGoes()
    requires Shape(Left(2, ASKING, Granted, [], Swapping)) && Mail(Left(2, ASKING, Granted, [], Swapping))
    ensures Goes(Left(2, ASKING, Granted, [], Swapping), EndSwap, Left(2, ASKING, Granted, [], Manager.Idle))
    ensures Shape(Left(2, ASKING, Granted, [], Manager.Idle)) && Mail(Left(2, ASKING, Granted, [], Manager.Idle))
  {
    var w, v := Left(2, ASKING, Granted, [], Swapping), Left(2, ASKING, Granted, [], Manager.Idle);
    assert forall x: Id :: Places(v, x) == Places(w, x);
    hide Valid, Books;
  }

  lemma LastCommitGoes()
    requires Shape(Left(2, ASKING, Granted, [], Manager.Idle)) && Mail(Left(2, ASKING, Granted, [], Manager.Idle))
    ensures Goes(Left(2, ASKING, Granted, [], Manager.Idle), Commit(2, 2), Left(2, HOLDING, Locked, [], Manager.Idle))
  {
    hide Committed, Valid, Books, Places;
    ImagesAre();
  }

  /** Blob 1 takes all the memory, and blob 2 is new. */
  function Filling(rest: seq<Move>): seq<Move> {
    Then(Usual(New(1)), Then(Usual(Lock(1)), Then(Usual(Ask(1, 2)), Then(Usual(Commit(1, 2)),
      Then(Usual(Unlock(1)), Then(Usual(New(2)), rest))))))
  }

  lemma FillingLeads(rest: seq<Move>, end: System)
    requires Leads(System(Both(0, FreshImage, Unlocked), {}), rest, end)
    ensures Leads(System(Initial(SMALL), {}), Filling(rest), end)
  {
    hide Goes, Leads, Inv, Alone, Both, Then;
    FillingGoes();
    var r5 := Then(Usual(New(2)), rest);
    FirstUsual(Alone(2, HOLDING, Unlocked), New(2), Both(0, FreshImage, Unlocked), {}, rest, end);
    var r4 := Then(Usual(Unlock(1)), r5);
    FirstUsual(Alone(2, HOLDING, Locked), Unlock(1), Alone(2, HOLDING, Unlocked), {}, r5, end);
    var r3 := Then(Usual(Commit(1, 2)), r4);
    FirstUsual(Alone(2, ASKING, Granted), Commit(1, 2), Alone(2, HOLDING, Locked), {}, r4, end);
    var r2 := Then(Usual(Ask(1, 2)), r3);
    FirstUsual(Alone(0, FreshImage, Locked), Ask(1, 2), Alone(2, ASKING, Granted), {}, r3, end);
    var r1 := Then(Usual(Lock(1)), r2);
    FirstUsual(Alone(0, FreshImage, Unlocked), Lock(1), Alone(0, FreshImage, Locked), {}, r2, end);
    FirstUsual(Initial(SMALL), New(1), Alone(0, FreshImage, Unlocked), {}, r1, end);
  }

  lemma FillingGoes()
    ensures Goes(Initial(SMALL), New(1), Alone(0, FreshImage, Unlocked))
    ensures Goes(Alone(0, FreshImage, Unlocked), Lock(1), Alone(0, FreshImage, Locked))
    ensures Goes(Alone(0, FreshImage, Locked), Ask(1, 2), Alone(2, ASKING, Granted))
    ensures Goes(Alone(2, ASKING, Granted), Commit(1, 2), Alone(2, HOLDING, Locked))
    ensures Goes(Alone(2, HOLDING, Locked), Unlock(1), Alone(2, HOLDING, Unlocked))
    ensures Goes(Alone(2, HOLDING, Unlocked), New(2), Both(0, FreshImage, Unlocked))
    ensures Inv(Both(0, FreshImage, Unlocked))
  {
    assert Inv(Initial(SMALL));
    hide Goes, Inv;
    NewGoes();
    GoesOn(Initial(SMALL), New(1), Alone(0, FreshImage, Unlocked));
    LockGoes();
    GoesOn(Alone(0, FreshImage, Unlocked), Lock(1), Alone(0, FreshImage, Locked));
    AskGoes();
    GoesOn(Alone(0, FreshImage, Locked), Ask(1, 2), Alone(2, ASKING, Granted));
    CommitGoes();
    GoesOn(Alone(2, ASKING, Granted), Commit(1, 2), Alone(2, HOLDING, Locked));
    UnlockGoes();
    GoesOn(Alone(2, HOLDING, Locked), Unlock(1), Alone(2, HOLDING, Unlocked));
    NewTwoGoes();
    GoesOn(Alone(2, HOLDING, Unlocked), New(2), Both(0, FreshImage, Unlocked));
  }

  /** Blob 1 goes, and the management thread begins to swap in. */
  function Freeing(rest: seq<Move>): seq<Move> {
    Then(Usual(Destroy(1)), Then(Usual(Receive), Then(Usual(BeginWalk), Then(Usual(EndWalk), rest))))
  }

  const FREED_0 := Left(2, PROMISED, Granted, [MemFreed], Manager.Idle)
  const FREED_1 := Left(2, PROMISED, Granted, [], InHand(MemFreed))
  const FREED_2 := Left(2, PROMISED, Granted, [], Walking([]))
  const FREED_3 := Left(2, PROMISED, Granted, [], Swapping)

  lemma FreeingGoes()
    requires Inv(Both(2, PROMISED, Granted))
    ensures Goes(Both(2, PROMISED, Granted), Destroy(1), FREED_0)
    ensures Goes(FREED_0, Receive, FREED_1) && Goes(FREED_1, BeginWalk, FREED_2) && Goes(FREED_2, EndWalk, FREED_3)
    ensures Inv(FREED_3)
  {
    hide Goes, Inv;
    DestroyGoes();
    GoesOn(Both(2, PROMISED, Granted), Destroy(1), FREED_0);
    WalkGoes(FREED_0, Receive, FREED_1);
    GoesOn(FREED_0, Receive, FREED_1);
    WalkGoes(FREED_1, BeginWalk, FREED_2);
    GoesOn(FREED_1, BeginWalk, FREED_2);
    WalkGoes(FREED_2, EndWalk, FREED_3);
    GoesOn(FREED_2, EndWalk, FREED_3);
  }

  lemma FreeingLeads(rest: seq<Move>, end: System)
    requires Inv(Both(2, PROMISED, Granted)) && Leads(System(FREED_3, {2}), rest, end)
    ensures Leads(System(Both(2, PROMISED, Granted), {2}), Freeing(rest), end)
  {
    hide Goes, Leads, Inv, Left, Both, Then;
    FreeingGoes();
    var r3 := Then(Usual(EndWalk), rest);
    FirstUsual(FREED_2, EndWalk, FREED_3, {2}, rest, end);
    var r2 := Then(Usual(BeginWalk), r3);
    FirstUsual(FREED_1, BeginWalk, FREED_2, {2}, r3, end);
    var r1 := Then(Usual(Receive), r2);
    FirstUsual(FREED_0, Receive, FREED_1, {2}, r2, end);
    FirstUsual(Both(2, PROMISED, Granted), Destroy(1), FREED_0, {2}, r1, end);
  }

  /** The new blob is swapped in between the grant and its use. */
  const SWAPPED: seq<Move> := Then(SwapInAnyway(2), Then(Usual(EndSwap), Then(Usual(Commit(2, 2)), [])))

  lemma SwappedLeads()
    requires Inv(FREED_3)
    ensures Leads(System(FREED_3, {2}), SWAPPED,
      System(Left(2, HOLDING, Locked, [], Manager.Idle), {2}))
  {
    hide Goes, Inv, Shape, Mail, Books, Can, Do, Left, Then;
    InvHas(FREED_3);
    SwapInGoes();
    EndSwapGoes();
    LastCommitGoes();
    var w1, w2 := Left(2, ASKING, Granted, [], Swapping), Left(2, ASKING, Granted, [], Manager.Idle);
    var w3 := Left(2, HOLDING, Locked, [], Manager.Idle);
    var end := System(w3, {2});
    assert Leads(end, [], end);
    hide Leads;
    FirstUsual(w2, Commit(2, 2), w3, {2}, [], end);
    FirstUsual(w1, EndSwap, w2, {2}, Then(Usual(Commit(2, 2)), []), end);
    First(System(FREED_3, {2}), SwapInAnyway(2), System(w1, {2}), Then(Usual(EndSwap), Then(Usual(Commit(2, 2)), [])), end);
  }

  /** The whole run. */
  const BROKEN_RUN: seq<Move> := Filling(Then(AskInNew(2, 2), Freeing(SWAPPED)))

  /**
   * Another blob takes the memory, the new blob asks and is granted disk, the other blob goes, the new one
   * is swapped in before it takes what it was granted: it then holds two bytes of memory that no counter
   * knows of, and two bytes stay charged on the disk.
   */
  lemma NewBlobBreaksTheBooks()
    ensures FreshBudget(SMALL)
    ensures var end := Left(2, HOLDING, Locked, [], Manager.Idle);
      && Leads(System(Initial(SMALL), {}), BROKEN_RUN, System(end, {2})) && !Books(end)
      && end.budget.memUsed == 0 && Total(end, end.blobs, false) == 2
      && end.budget.diskUsed == 2 && Total(end, end.blobs, true) == 0
  {
    var end := Left(2, HOLDING, Locked, [], Manager.Idle);
    assert Total(end, end.blobs, false) == 2 && Total(end, end.blobs, true) == 0;
    BrokenRunLeads();
  }

  lemma BrokenRunLeads()
    ensures Leads(System(Initial(SMALL), {}), BROKEN_RUN, System(Left(2, HOLDING, Locked, [], Manager.Idle), {2}))
  {
    hide Goes, Leads, Inv, Can, Do, Left, Both, Then, Freeing;
    FillingGoes();
    AskInNewGoes();
    var y, granted := System(Both(0, FreshImage, Unlocked), {}), System(Both(2, PROMISED, Granted), {2});
    AskInNewKeepsInv(y, 2, 2);
    InvHas(y.world);
    hide Shape, Mail;
    var end := System(Left(2, HOLDING, Locked, [], Manager.Idle), {2});
    FreeingGoes();
    SwappedLeads();
    FreeingLeads(SWAPPED, end);
    First(y, AskInNew(2, 2), granted, Freeing(SWAPPED), end);
    FillingLeads(Then(AskInNew(2, 2), Freeing(SWAPPED)), end);
  }
}
