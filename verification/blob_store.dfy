/**
 * The decisions of src/blob.c on values: who may have how many bytes and where, how the two counters of
 * the shared budget move, and one step of the management thread's walk over those who wait.
 */
module BlobStore {
  import opened BlobImage
  import opened Octets

  /** Counters are 64-bit unsigned in C; what is left of a budget is computed modulo this. */
  const WORD := 0x1_0000_0000_0000_0000

  datatype Budget = Budget(memMax: int, memUsed: int, diskMax: int, diskUsed: int, lowat: int, hiwat: int)

  datatype Verdict = Verdict(budget: Budget, image: Image, granted: bool)

  /** z_blob_swap_out with its effect on the counters. */
  function SwapOutUnder(g: Budget, im: Image): (r: (Budget, Image))
    requires Valid(im)
  {
    if !im.storageLocked && !im.inFile then
      (g.(memUsed := g.memUsed - im.alloc, diskUsed := g.diskUsed + im.alloc), SwappedOut(im))
    else (g, im)
  }

  /** z_blob_check_alloc: may a blob change its allocation by `allocReq`, and where will it live then? */
  function Decide(g: Budget, im: Image): Verdict
    requires Valid(im)
  {
    var memAvailable := (g.memMax - g.memUsed) % WORD;
    var diskAvailable := (g.diskMax - g.diskUsed) % WORD;
    if im.inFile then
      Verdict(g.(diskUsed := g.diskUsed + im.allocReq), im, true)
    else if im.allocReq < 0 || im.allocReq <= memAvailable then
      Verdict(g.(memUsed := g.memUsed + im.allocReq), im, true)
    else if !im.storageLocked && im.alloc + im.allocReq <= diskAvailable then
      var (h, om) := SwapOutUnder(g, im);
      Verdict(h.(diskUsed := h.diskUsed + im.allocReq), om, true)
    else
      Verdict(g, im, false)
  }

  /** z_blob_system_new's clipping of the water marks: each is the largest number below the limit that is not above what was asked for. */
  function NewBudget(memMax: int, diskMax: int, low: int, high: int): (g: Budget)
    requires 1 <= memMax < WORD
    ensures g.memUsed == g.diskUsed == 0 && g.memMax == memMax && g.diskMax == diskMax
    ensures g.lowat <= low && g.lowat < memMax && (g.lowat == low || g.lowat + 1 == memMax)
    ensures g.hiwat <= high && g.hiwat < memMax && (g.hiwat == high || g.hiwat + 1 == memMax)
  {
    Budget(memMax, 0, diskMax, 0, if memMax <= low then memMax - 1 else low, if memMax <= high then memMax - 1 else high)
  }

  // ----- what a decision does to the accounts -----

  /** What a blob weighs on one of the two counters, with `pending` bytes granted but not yet committed. */
  function Charge(im: Image, pending: int, onDisk: bool): int {
    if im.inFile == onDisk then im.alloc + pending else 0
  }

  /** A decision keeps the books: whatever it grants is charged at once, on the right counter. */
  lemma DecideBalances(g: Budget, im: Image)
    requires Valid(im)
    requires 0 <= g.memUsed <= g.memMax < WORD
    requires 0 <= im.alloc + im.allocReq
    ensures var v := Decide(g, im); var pending := if v.granted then im.allocReq else 0;
      && v.budget.memUsed - g.memUsed == Charge(v.image, pending, false) - Charge(im, 0, false)
      && v.budget.diskUsed - g.diskUsed == Charge(v.image, pending, true) - Charge(im, 0, true)
      && v.budget.memUsed <= v.budget.memMax
      && v.budget == g.(memUsed := v.budget.memUsed, diskUsed := v.budget.diskUsed)
      && Valid(v.image) && Contents(v.image) == Contents(im)
      && v.image.alloc == im.alloc && v.image.allocReq == im.allocReq
      && (Readable(im) ==> Readable(v.image))
      && (im.allocReq <= 0 ==> v.granted && v.image == im)
  {
    SwapOutInvisible(im);
    assert (g.memMax - g.memUsed) % WORD == g.memMax - g.memUsed;
  }

  /** The counters are 64-bit unsigned numbers. */
  ghost predicate Fitting(g: Budget) {
    && 0 <= g.memUsed <= g.memMax < 0x1_0000_0000_0000_0000
    && 0 <= g.diskUsed < 0x1_0000_0000_0000_0000 && 0 <= g.diskMax < 0x1_0000_0000_0000_0000
  }

  /** What the difference of the two unsigned counters says is left on the disk. */
  function DiskLeft(g: Budget): int {
    if g.diskUsed <= g.diskMax then g.diskMax - g.diskUsed else 0x1_0000_0000_0000_0000 - (g.diskUsed - g.diskMax)
  }

  /**
   * Denied exactly when the blob is in memory, the request is larger than what memory has left, and the
   * blob is pinned or larger than what the disk has left; which is nearly everything once its limit is
   * exceeded.
   */
  lemma DeniedExactlyWhenNeitherFits(g: Budget, im: Image)
    requires Valid(im) && Fitting(g)
    ensures !Decide(g, im).granted <==>
      && !im.inFile && 0 <= im.allocReq && g.memUsed + im.allocReq > g.memMax
      && (im.storageLocked || im.alloc + im.allocReq > DiskLeft(g))
  {
    assert (g.memMax - g.memUsed) % WORD == g.memMax - g.memUsed;
    assert (g.diskMax - g.diskUsed) % WORD == DiskLeft(g);
  }

  /**
   * A decision moves a blob to a file exactly when the request is larger than what memory has left and the
   * disk has room for all of it; a pinned blob is never moved, and none is moved the other way.
   */
  lemma DecisionMovesExactly(g: Budget, im: Image)
    requires Valid(im) && Fitting(g)
    ensures var after := Decide(g, im).image;
      && (after.inFile && !im.inFile <==>
          && !im.inFile && !im.storageLocked && 0 <= im.allocReq && g.memUsed + im.allocReq > g.memMax
          && im.alloc + im.allocReq <= DiskLeft(g))
      && (im.inFile ==> after.inFile)
  {
    assert (g.memMax - g.memUsed) % WORD == g.memMax - g.memUsed;
    assert (g.diskMax - g.diskUsed) % WORD == DiskLeft(g);
  }

  /**
   * A blob in a file may exceed the disk limit, by any amount; from then on blobs that are not pinned are
   * granted whatever they ask for.  (All sizes here are below 2^63, as in C.)
   */
  lemma ExceededDiskLimitGrantsEverything(g: Budget, grown: Image, other: Image)
    requires Valid(grown) && grown.inFile && Valid(other) && !other.storageLocked
    requires 0 <= g.memUsed <= g.memMax < WORD && 0 <= g.diskMax
    requires g.diskMax < g.diskUsed + grown.allocReq < WORD / 2 && other.alloc + other.allocReq < WORD / 2
    ensures var v := Decide(g, grown); v.granted && Decide(v.budget, other).granted
  {
    DeniedExactlyWhenNeitherFits(Decide(g, grown).budget, other);
    hide Valid;
  }

  // ----- the management thread's walk over the waiting list -----

  datatype Walk<Id> = Walk(budget: Budget, images: map<Id, Image>, kept: seq<Id>, granted: seq<Id>)

  ghost function WalkOne<Id>(w: Walk<Id>, b: Id): Walk<Id>
    requires b in w.images && Valid(w.images[b])
  {
    var v := Decide(w.budget, w.images[b]);
    Walk(v.budget, w.images[b := v.image],
         if v.granted then w.kept else w.kept + [b],
         if v.granted then w.granted + [b] else w.granted)
  }

  ghost predicate AllValid<Id>(images: map<Id, Image>) {
    forall b :: b in images ==> Valid(images[b])
  }

  lemma WalkOneValid<Id>(w: Walk<Id>, b: Id)
    requires b in w.images && AllValid(w.images)
    ensures AllValid(WalkOne(w, b).images)
  {
    SwapOutInvisible(w.images[b]);
  }
}
