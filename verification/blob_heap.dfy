/** The mutable objects of src/blob.c and the methods that run on them under the system's mutex. */
module BlobHeap {
  import opened Arithmetic
  import opened BlobImage
  import opened BlobStore
  import opened Octets

  class Blob {
    var size: nat
    var allocSize: nat
    var isInFile: bool
    var data: seq<Octet>
    var file: seq<Octet>
    var storageLocked: bool
    var allocReq: int
    var approved: bool
    var replied: bool

    ghost function Image(): Image
      reads this
    {
      BlobImage.Image(size, allocSize, isInFile, data, file, storageLocked, allocReq)
    }

    constructor ()
      ensures Image() == FreshImage && !replied
    {
      size, allocSize, isInFile, data, file := 0, 0, false, [], [];
      storageLocked, allocReq, approved, replied := false, 0, false, false;
    }

    /** z_blob_signal_ready. */
    method SignalReady()
      modifies this`replied
      ensures replied
    {
      replied := true;
    }

    /**
     * The two shift loops at the start of z_blob_alloc.  In memory the reservation moves by factors
     * of two from where it is, down only as far as it must and up only as far as it must, and ends less
     * than a factor of two above what was asked for.
     */
    method RequestedAllocSize(reqSize: nat) returns (n: nat)
      ensures allocSize == 0 || isInFile ==> n == reqSize
      ensures 0 < allocSize && !isInFile ==> exists j: nat, k: nat ::
        && n == allocSize / Pow2(j) * Pow2(k)
        && allocSize / Pow2(j) <= reqSize <= n
        && (forall i: nat :: i < j ==> allocSize / Pow2(i) > reqSize)
        && (forall i: nat :: i < k ==> allocSize / Pow2(j) * Pow2(i) < reqSize)
      ensures reqSize <= n && (n == reqSize || n < 2 * reqSize)
      ensures allocSize == reqSize ==> n == reqSize
    {
      if allocSize <= 0 || isInFile {
        n := reqSize;
      } else {
        ghost var j := HalvedIsLeast(allocSize, reqSize);
        ghost var k := DoubledIsLeast(Halved(allocSize, reqSize), reqSize);
        n := allocSize;
        while n > reqSize
          invariant 0 < n || reqSize == 0
          invariant Halved(n, reqSize) == Halved(allocSize, reqSize)
        {
          n := n / 2;
        }
        while n < reqSize
          invariant 0 < n || reqSize == 0
          invariant n == reqSize || n < 2 * reqSize
          invariant Doubled(n, reqSize) == Doubled(Halved(allocSize, reqSize), reqSize)
          decreases reqSize - n
        {
          n := n * 2;
        }
      }
    }

    /** The end of z_blob_alloc, after the grant. */
    method Commit(n: nat)
      requires Valid(Image())
      modifies this
      ensures Image() == Committed(old(Image()), n)
      ensures Valid(Image()) && Contents(Image()) == Clip(old(Contents(Image())), n)
    {
      ghost var before := Image();
      if isInFile {
        file := Fit(file, n);
      } else {
        data := Fit(data, n);
      }
      allocSize := n;
      if size > n {
        size := n;
      }
      CommitClips(before, n);
    }

    /** z_blob_add_copy, after the allocation. */
    method AddCopy(pos: nat, d: seq<Octet>) returns (written: nat)
      requires Valid(Image()) && pos + |d| <= allocSize
      modifies this
      ensures written == |d|
      ensures Image() == Stored(old(Image()), pos, d)
      ensures Valid(Image()) && Contents(Image()) == Overlay(old(Contents(Image())), pos, d)
    {
      ghost var before := Image();
      if isInFile {
        file := FileWrite(file, pos, d);
      } else {
        data := Overlay(data, pos, d);
      }
      written := |d|;
      if size < pos + written {
        size := pos + written;
      }
      StoreOverlays(before, pos, d);
    }

    /** z_blob_get_copy. */
    method GetCopy(pos: nat, n: nat) returns (r: Reading)
      requires Valid(Image())
      ensures r == BlobImage.GetCopy(Image(), pos, n)
      ensures Readable(Image()) ==> r == Got(Slice(Contents(Image()), pos, n))
    {
      GetCopyIsSlice(Image());
      if pos >= size {
        return Got([]);
      }
      var m := n;
      if m > size - pos {
        m := size - pos;
      }
      if isInFile {
        var got := FileRead(file, pos, m);
        if |got| < m {
          return Spins;
        }
        r := Got(got);
      } else {
        r := Got(data[pos..pos + m]);
      }
    }
  }

  datatype Item = Request(blob: Blob) | MemFreed

  class BlobSystem {
    var diskMax: int
    var diskUsed: int
    var memMax: int
    var memUsed: int
    var lowat: int
    var hiwat: int
    var blobs: seq<Blob>
    var waitingList: seq<Blob>
    var reqQueue: seq<Item>

    ghost function Budget(): Budget
      reads this
    {
      BlobStore.Budget(memMax, memUsed, diskMax, diskUsed, lowat, hiwat)
    }

    /** z_blob_swap_out. */
    method SwapOut(b: Blob)
      requires Valid(b.Image())
      modifies this`memUsed, this`diskUsed, b
      ensures (Budget(), b.Image()) == SwapOutUnder(old(Budget()), old(b.Image()))
      ensures if old(b.storageLocked) || old(b.isInFile) then Budget() == old(Budget()) && b.Image() == old(b.Image())
        else b.isInFile && memUsed == old(memUsed) - b.allocSize && diskUsed == old(diskUsed) + b.allocSize
      ensures b.replied == old(b.replied) && b.approved == old(b.approved)
      ensures Valid(b.Image()) && Contents(b.Image()) == old(Contents(b.Image()))
    {
      SwapOutInvisible(b.Image());
      if !b.storageLocked && !b.isInFile {
        b.file := FileWrite(b.file, 0, b.data[..b.size]);
        b.isInFile := true;
        b.data := [];
        memUsed := memUsed - b.allocSize;
        diskUsed := diskUsed + b.allocSize;
      }
    }

    /** z_blob_check_alloc. */
    method CheckAlloc(b: Blob) returns (success: bool)
      requires Valid(b.Image())
      modifies this`memUsed, this`diskUsed, this`reqQueue, b
      ensures BlobStore.Verdict(Budget(), b.Image(), success) == Decide(old(Budget()), old(b.Image()))
      ensures reqQueue == old(reqQueue) + if old(b.allocReq) < 0 then [MemFreed] else []
      ensures b.replied == old(b.replied) && b.approved == old(b.approved)
      ensures Valid(b.Image()) && Contents(b.Image()) == old(Contents(b.Image()))
    {
      var memAvailable := (memMax - memUsed) % WORD;
      var diskAvailable := (diskMax - diskUsed) % WORD;
      var reqTotal := b.allocSize + b.allocReq;
      success := false;
      if b.isInFile {
        diskUsed := diskUsed + b.allocReq;
        success := true;
      } else if b.allocReq < 0 || b.allocReq <= memAvailable {
        memUsed := memUsed + b.allocReq;
        success := true;
      } else if !b.storageLocked && reqTotal <= diskAvailable {
        SwapOut(b);
        diskUsed := diskUsed + b.allocReq;
        success := true;
      }
      if b.allocReq < 0 {
        reqQueue := reqQueue + [MemFreed];
      }
    }

    /** z_blob_unref reaching zero: the blob leaves the list and its whole allocation is given back. */
    method Destroy(b: Blob)
      requires Valid(b.Image())
      requires 0 <= memUsed <= memMax < WORD
      modifies this, b
      ensures FirstUnlinked(old(blobs), b, blobs)
      ensures memUsed == old(memUsed) - Charge(old(b.Image()), 0, false)
      ensures diskUsed == old(diskUsed) - Charge(old(b.Image()), 0, true)
      ensures reqQueue == old(reqQueue) + if old(b.allocSize) > 0 then [MemFreed] else []
      ensures waitingList == old(waitingList)
    {
      hide FirstUnlinked, Without, Decide, Contents;
      b.allocReq := 0 - b.allocSize;
      WithoutUnlinksFirst(blobs, b);
      blobs := Without(blobs, b);
      DecideBalances(Budget(), b.Image());
      var ok := CheckAlloc(b);
    }

    ghost function Images(bs: seq<Blob>): map<Blob, Image>
      reads bs
    {
      map b | b in bs :: b.Image()
    }

    /** The walk `w` describes the system: its counters, and every blob of `all`. */
    ghost predicate Matches(w: Walk<Blob>, all: seq<Blob>)
      reads this, all
    {
      && Budget() == w.budget
      && AllValid(w.images)
      && forall b <- all :: b in w.images && b.Image() == w.images[b]
    }

    ghost predicate Answered(bs: seq<Blob>)
      reads bs
    {
      forall b <- bs :: b.replied
    }

    /** Ask again for a waiting blob, and answer it if the request is granted now. */
    method CheckAgain(b: Blob, ghost w: Walk<Blob>, ghost all: seq<Blob>) returns (approved: bool, ghost next: Walk<Blob>)
      requires b in all && Matches(w, all)
      modifies this`memUsed, this`diskUsed, this`reqQueue, b
      ensures Matches(next, all) && next == WalkOne(w, b)
      ensures next.kept == w.kept + if approved then [] else [b]
      ensures next.granted == w.granted + if approved then [b] else []
      ensures b.replied == (approved || old(b.replied)) && b.approved == approved
    {
      hide Decide, Contents, Valid;
      next := WalkOne(w, b);
      WalkOneValid(w, b);
      assert Valid(b.Image());
      approved := CheckAlloc(b);
      b.approved := approved;
      if approved {
        b.SignalReady();
      }
    }

    /** One blob of the walk below: it leaves the list if it was answered. */
    method CheckWaitingAt(cur: nat, ghost w: Walk<Blob>, ghost all: seq<Blob>, ghost todo: seq<Blob>)
      returns (approved: bool, ghost next: Walk<Blob>)
      requires todo != [] && cur == |w.kept| && waitingList == w.kept + todo
      requires (forall b <- todo :: b in all) && Matches(w, all)
      modifies this`memUsed, this`diskUsed, this`reqQueue, this`waitingList, todo[0]
      ensures Matches(next, all) && WalkAll(next, todo[1..]) == WalkAll(w, todo)
      ensures |next.kept| == (if approved then cur else cur + 1) && waitingList == next.kept + todo[1..]
      ensures next.granted == w.granted + if approved then [todo[0]] else []
      ensures old(Answered(w.granted)) ==> Answered(next.granted)
    {
      UnlinkAt(w.kept, todo);
      approved, next := CheckAgain(waitingList[cur], w, all);
      if approved {
        waitingList := waitingList[..cur] + waitingList[cur + 1..];
      }
    }

    /**
     * The walk over the waiting list that follows a MEM_FREED message.  What stays in the list, who is
     * answered, the counters and every blob end as the walk on values says.
     */
    method CheckWaiting() returns (ghost granted: seq<Blob>)
      requires forall b <- waitingList :: Valid(b.Image())
      modifies this`memUsed, this`diskUsed, this`reqQueue, this`waitingList, waitingList
      ensures AllValid(old(Images(waitingList)))
      ensures
        var w := WalkAll(Walk(old(Budget()), old(Images(waitingList)), [], []), old(waitingList));
        Matches(w, old(waitingList)) && waitingList == w.kept && granted == w.granted
      ensures Answered(granted)
    {
      ghost var all := waitingList;
      ghost var w := Walk(Budget(), Images(all), [], []);
      ghost var end := WalkAll(w, all);
      ghost var todo := all;
      var cur := 0;
      assert Matches(w, all) && Answered(w.granted) && w.kept + todo == waitingList;
      hide WalkAll, Answered, Valid;
      while cur < |waitingList|
        invariant cur == |w.kept| && waitingList == w.kept + todo
        invariant forall b <- todo :: b in all
        invariant Matches(w, all)
        invariant end == WalkAll(w, todo)
        invariant Answered(w.granted)
        decreases |todo|
      {
        hide WalkAll, Answered, Valid;
        assert todo[0] in all;
        var approved;
        approved, w := CheckWaitingAt(cur, w, all, todo);
        todo := todo[1..];
        if !approved {
          cur := cur + 1;
        }
      }
      granted := w.granted;
      NoMoreToWalk(w);
    }

    /** The part of z_blob_system_swap_in that moves the chosen blob. */
    method SwapInOne(b: Blob)
      requires Valid(b.Image()) && b.isInFile
      modifies this`memUsed, this`diskUsed, b
      ensures b.Image() == SwappedIn(old(b.Image()))
      ensures Valid(b.Image()) && Contents(b.Image()) == old(Contents(b.Image()))
      ensures Budget() == old(Budget()).(memUsed := old(memUsed) + b.allocSize, diskUsed := old(diskUsed) - b.allocSize)
    {
      SwapInInvisible(b.Image());
      b.data := Fit(FileRead(b.file, 0, b.size), b.allocSize);
      b.isInFile := false;
      b.file := [];
      diskUsed := diskUsed - b.allocSize;
      memUsed := memUsed + b.allocSize;
    }

    ghost predicate Eligible(b: Blob, space: int)
      reads b
    {
      !b.storageLocked && b.isInFile && b.allocSize <= space
    }

    /** The inner loop of z_blob_system_swap_in: some eligible blob with the largest factor, or none. */
    method Best(space: int, factor: Blob -> nat) returns (best: Blob?)
      ensures best == null ==> forall b <- blobs :: !Eligible(b, space)
      ensures best != null ==> best in blobs && Eligible(best, space)
      ensures best != null ==> forall b <- blobs :: Eligible(b, space) ==> factor(b) <= factor(best)
    {
      var bestFactor: int := -1;
      best := null;
      for k := 0 to |blobs|
        invariant best == null ==> bestFactor == -1 && forall b <- blobs[..k] :: !Eligible(b, space)
        invariant best != null ==> best in blobs && Eligible(best, space) && bestFactor == factor(best)
        invariant forall b <- blobs[..k] :: Eligible(b, space) ==> factor(b) <= bestFactor
      {
        var b := blobs[k];
        assert blobs[..k + 1] == blobs[..k] + [b];
        if !b.storageLocked && b.isInFile && b.allocSize <= space {
          if factor(b) > bestFactor {
            bestFactor := factor(b);
            best := b;
          }
        }
      }
    }

    /**
     * z_blob_system_swap_in with every blob's lock free.  `factor(n, b)` stands for the access rate the
     * C code computes from the clock in round `n`.  The loop ends; it moves bytes from the disk account
     * to the memory account and nowhere else; it does not fill memory past the high water mark; when it
     * ran, nothing is left on disk that would still fit below that mark; and no reader can tell.
     */
    method SwapIn(factor: (nat, Blob) -> nat)
      requires forall b <- blobs :: Valid(b.Image())
      modifies this`memUsed, this`diskUsed, blobs
      ensures memUsed + diskUsed == old(memUsed) + old(diskUsed)
      ensures memUsed <= old(memUsed) || memUsed <= hiwat
      ensures old(memUsed) >= lowat || old(diskUsed) < hiwat ==>
        memUsed == old(memUsed) && forall b <- blobs :: b.Image() == old(b.Image())
      ensures old(memUsed) < lowat && old(diskUsed) >= hiwat ==> forall b <- blobs :: !Eligible(b, hiwat - memUsed)
      ensures forall b <- blobs :: MaybeSwappedIn(old(b.Image()), b.Image())
      ensures forall b <- blobs :: Contents(b.Image()) == old(Contents(b.Image()))
    {
      if memUsed >= lowat || diskUsed < hiwat {
        return;
      }
      var round := 0;
      var more := true;
      while more
        invariant memUsed + diskUsed == old(memUsed) + old(diskUsed)
        invariant memUsed <= old(memUsed) || memUsed <= hiwat
        invariant more || forall b <- blobs :: !Eligible(b, hiwat - memUsed)
        invariant forall b <- blobs :: MaybeSwappedIn(old(b.Image()), b.Image())
        decreases OnDisk(), more
      {
        label Before:
        more := SwapInBest(b => factor(round, b));
        forall b <- blobs
          ensures MaybeSwappedIn(old(b.Image()), b.Image())
        {
          MaybeSwappedInTwice(old(b.Image()), old@Before(b.Image()), b.Image());
        }
        round := round + 1;
      }
    }

    ghost function OnDisk(): set<Blob>
      reads this, blobs
    {
      set b | b in blobs && b.isInFile
    }

    /** One round of the swap-in loop. */
    method SwapInBest(factor: Blob -> nat) returns (moved: bool)
      requires forall b <- blobs :: Valid(b.Image())
      modifies this`memUsed, this`diskUsed, blobs
      ensures memUsed + diskUsed == old(memUsed) + old(diskUsed)
      ensures memUsed <= old(memUsed) || memUsed <= hiwat
      ensures !moved ==> memUsed == old(memUsed) && forall b <- blobs :: !Eligible(b, hiwat - memUsed)
      ensures forall b <- blobs :: MaybeSwappedIn(old(b.Image()), b.Image())
      ensures if moved then OnDisk() < old(OnDisk()) else OnDisk() == old(OnDisk())
    {
      var best := Best(hiwat - memUsed, factor);
      moved := best != null;
      if moved {
        ghost var before := OnDisk();
        SwapInOne(best);
        assert OnDisk() == before - {best};
      }
    }
  }

  lemma UnlinkAt(kept: seq<Blob>, todo: seq<Blob>)
    requires todo != []
    ensures (kept + todo)[|kept|] == todo[0]
    ensures (kept + todo)[..|kept|] + (kept + todo)[|kept| + 1..] == kept + todo[1..]
    ensures kept + todo == kept + [todo[0]] + todo[1..]
  {
  }

  lemma MaybeSwappedInTwice(a: Image, b: Image, c: Image)
    requires Valid(a) && MaybeSwappedIn(a, b) && MaybeSwappedIn(b, c)
    ensures MaybeSwappedIn(a, c)
  {
  }

  /** Unchanged, or taken from the swap file; Valid and invisible either way. */
  ghost predicate MaybeSwappedIn(before: Image, after: Image)
    ensures Valid(before) && MaybeSwappedIn(before, after) ==> Valid(after) && Contents(after) == Contents(before)
  {
    if Valid(before) && before.inFile then
      SwapInInvisible(before);
      after == before || (!before.storageLocked && after == SwappedIn(before))
    else after == before
  }

  /** g_list_remove: the first occurrence goes. */
  function Without(bs: seq<Blob>, b: Blob): seq<Blob> {
    if bs == [] then [] else if bs[0] == b then bs[1..] else [bs[0]] + Without(bs[1..], b)
  }

  /** Just that occurrence goes, and the others keep their order. */
  lemma {:induction false} WithoutOne(bs: seq<Blob>, b: Blob) returns (i: nat)
    requires b in bs
    ensures i < |bs| && bs[i] == b && b !in bs[..i]
    ensures Without(bs, b) == bs[..i] + bs[i + 1..]
  {
    i := 0;
    if bs[0] != b {
      var rest := bs[1..];
      assert bs == [bs[0]] + rest;
      var k := WithoutOne(rest, b);
      i := k + 1;
      assert bs[..i] == [bs[0]] + rest[..k];
      assert bs[i + 1..] == rest[k + 1..];
    }
  }

  /** The first `b` is gone, if there was one, and all others are there in the same order. */
  ghost predicate FirstUnlinked(before: seq<Blob>, b: Blob, after: seq<Blob>) {
    if b in before then
      exists i :: 0 <= i < |before| && before[i] == b && b !in before[..i] && after == before[..i] + before[i + 1..]
    else after == before
  }

  lemma WithoutUnlinksFirst(bs: seq<Blob>, b: Blob)
    ensures FirstUnlinked(bs, b, Without(bs, b))
  {
    if b in bs {
      var i := WithoutOne(bs, b);
    } else {
      WithoutNone(bs, b);
    }
  }

  lemma {:induction false} WithoutNone(bs: seq<Blob>, b: Blob)
    requires b !in bs
    ensures Without(bs, b) == bs
  {
    if bs != [] {
      WithoutNone(bs[1..], b);
      assert bs == [bs[0]] + bs[1..];
    }
  }

  ghost function WalkAll(w: Walk<Blob>, todo: seq<Blob>): Walk<Blob>
    requires AllValid(w.images) && forall b <- todo :: b in w.images
    decreases |todo|
  {
    if todo == [] then w
    else
      WalkOneValid(w, todo[0]);
      WalkAll(WalkOne(w, todo[0]), todo[1..])
  }

  lemma NoMoreToWalk(w: Walk<Blob>)
    requires AllValid(w.images)
    ensures WalkAll(w, []) == w
  {
  }
}
