/**
 * One blob of src/blob.c as a value: where its bytes live, and what a reader sees.
 *
 * A blob keeps its bytes either in a heap block of `alloc` octets or in a swap file.  The operations
 * below are what the C functions do to that pair; the lemmas show which readers can tell the two places
 * apart, and find the one operation after which every reader can.
 */
module BlobImage {
  import opened Octets

  datatype Image = Image(
    size: nat,            // bytes written so far
    alloc: nat,           // bytes reserved
    inFile: bool,
    data: seq<Octet>,     // the heap block, when in memory
    file: seq<Octet>,     // the swap file
    storageLocked: bool,
    allocReq: int)        // the change of `alloc` last asked for

  const FreshImage := Image(0, 0, false, [], [], false, 0)

  /** The shape every operation keeps; nothing but zeros lies between `size` and `alloc`. */
  predicate Valid(im: Image) {
    && im.size <= im.alloc
    && (im.inFile ==> im.data == [] && |im.file| <= im.alloc)
    && (!im.inFile ==> im.file == [] && |im.data| == im.alloc)
    && (forall i :: im.size <= i < |im.data| ==> im.data[i] == 0)
    && (forall i :: im.size <= i < |im.file| ==> im.file[i] == 0)
  }

  /** The byte string the blob stands for, wherever it lives. */
  function Contents(im: Image): (c: seq<Octet>)
    ensures |c| == im.size
  {
    Fit(if im.inFile then im.file else im.data, im.size)
  }

  // ----- what write(2), read(2) and ftruncate(2) do, each completing in one call -----

  function FileWrite(file: seq<Octet>, pos: nat, d: seq<Octet>): (r: seq<Octet>)
    ensures |r| == if d == [] || pos + |d| <= |file| then |file| else pos + |d|
  {
    if d == [] then file else Overlay(file, pos, d)
  }

  function FileRead(file: seq<Octet>, pos: nat, n: nat): (r: seq<Octet>)
    ensures |r| <= n && (|r| == n || |file| <= pos + |r|)
    ensures forall i :: 0 <= i < |r| ==> pos + i < |file| && r[i] == file[pos + i]
  {
    if |file| <= pos then [] else if |file| - pos <= n then file[pos..] else file[pos..pos + n]
  }

  // ----- the operations -----

  /** z_blob_swap_out. */
  function SwappedOut(im: Image): Image
    requires Valid(im)
  {
    if !im.storageLocked && !im.inFile then
      im.(inFile := true, file := FileWrite(im.file, 0, im.data[..im.size]), data := [])
    else im
  }

  /** The part of z_blob_system_swap_in that moves one blob. */
  function SwappedIn(im: Image): Image {
    im.(inFile := false, data := Fit(FileRead(im.file, 0, im.size), im.alloc), file := [])
  }

  /** The end of z_blob_alloc, once the request for `n` bytes in all has been granted. */
  function Committed(im: Image, n: nat): Image {
    var sized := im.(alloc := n, size := if im.size > n then n else im.size);
    if im.inFile then sized.(file := Fit(im.file, n)) else sized.(data := Fit(im.data, n))
  }

  /** The part of z_blob_add_copy that follows the allocation. */
  function Stored(im: Image, pos: nat, d: seq<Octet>): Image {
    var sized := im.(size := if im.size < pos + |d| then pos + |d| else im.size);
    if im.inFile then sized.(file := FileWrite(im.file, pos, d))
    else sized.(data := Overlay(im.data, pos, d))
  }

  /**
   * z_blob_get_copy returns bytes, or its read loop never ends because the file is too short, or it copies
   * from behind the end of the block.
   */
  datatype Reading = Got(bytes: seq<Octet>) | Spins | Beyond

  /** The part of z_blob_get_copy that holds the lock, for a length `m` settled on before. */
  function Fetch(im: Image, pos: nat, m: nat): Reading {
    if m == 0 then Got([])
    else if im.inFile then
      var got := FileRead(im.file, pos, m);
      if |got| < m then Spins else Got(got)
    else if pos + m <= |im.data| then Got(im.data[pos..pos + m])
    else Beyond
  }

  /** All of z_blob_get_copy, if nothing comes in between. */
  function GetCopy(im: Image, pos: nat, n: nat): Reading {
    if im.size <= pos then Got([]) else Fetch(im, pos, if n > im.size - pos then im.size - pos else n)
  }

  // ----- the plain byte string that the blob refines -----

  function Slice(c: seq<Octet>, pos: nat, n: nat): (r: seq<Octet>)
    ensures |r| <= n && (|r| == n || |c| <= pos + |r|)
    ensures forall i :: 0 <= i < |r| ==> pos + i < |c| && r[i] == c[pos + i]
  {
    if |c| <= pos then [] else if n > |c| - pos then c[pos..] else c[pos..pos + n]
  }

  function Clip(c: seq<Octet>, n: nat): (r: seq<Octet>)
    ensures r <= c && |r| <= n && (|r| == n || r == c)
  {
    if |c| > n then c[..n] else c
  }

  /** The whole of `size` can be read back: the file reaches as far as the blob claims. */
  predicate Readable(im: Image) {
    im.inFile ==> im.size <= |im.file|
  }

  // ----- swapping is invisible -----

  /** Neither the outstanding request nor the pin touches the bytes. */
  lemma SettingsAside(im: Image, req: int, pinned: bool)
    requires Valid(im)
    ensures var om := im.(allocReq := req, storageLocked := pinned);
      Valid(om) && Contents(om) == Contents(im) && (Readable(om) <==> Readable(im))
  {
  }

  lemma SwapOutInvisible(im: Image)
    requires Valid(im)
    ensures var om := SwappedOut(im);
      && Valid(om) && om.alloc == im.alloc && om.allocReq == im.allocReq
      && Contents(om) == Contents(im)
      && (Readable(im) ==> Readable(om))
      && (if im.storageLocked then om == im else om.inFile) && (im.inFile ==> om == im)
  {
    var om := SwappedOut(im);
    if om != im {
      assert om.file == im.data[..im.size];
      assert Contents(om) == Contents(im);
    }
  }

  lemma SwapInInvisible(im: Image)
    requires Valid(im) && im.inFile
    ensures var om := SwappedIn(im);
      && Valid(om) && om.alloc == im.alloc && om.allocReq == im.allocReq
      && Contents(om) == Contents(im) && Readable(om)
  {
    var om := SwappedIn(im);
    assert Contents(om) == Contents(im);
  }

  /** Growing changes nothing a reader sees; shrinking clips. */
  lemma CommitClips(im: Image, n: nat)
    requires Valid(im)
    ensures var om := Committed(im, n);
      && Valid(om) && om.alloc == n && om.inFile == im.inFile
      && Contents(om) == Clip(Contents(im), n)
      && Readable(om)
  {
    var om := Committed(im, n);
    assert Contents(om) == Clip(Contents(im), n);
  }

  /**
   * Writing lays the bytes over a zero-extended byte string.  A readable blob stays readable exactly
   * when it is in memory, or something is written, or the position is inside the file.
   */
  lemma StoreOverlays(im: Image, pos: nat, d: seq<Octet>)
    requires Valid(im) && pos + |d| <= im.alloc
    ensures var om := Stored(im, pos, d);
      && Valid(om) && om.alloc == im.alloc && om.inFile == im.inFile
      && Contents(om) == Overlay(Contents(im), pos, d)
      && (Readable(im) ==> (Readable(om) <==> (im.inFile && d == [] ==> pos <= |im.file|)))
  {
    var om := Stored(im, pos, d);
    hide Fit, Overlay;
    LaidOver(if im.inFile then im.file else im.data, im.size, pos, d);
  }

  /** Cutting to the size and laying bytes over commute, if nothing but zeros is cut off. */
  lemma LaidOver(from: seq<Octet>, size: nat, pos: nat, d: seq<Octet>)
    requires forall i :: size <= i < |from| ==> from[i] == 0
    ensures var grown := if size < pos + |d| then pos + |d| else size;
      && Fit(Overlay(from, pos, d), grown) == Overlay(Fit(from, size), pos, d)
      && (d == [] ==> Fit(from, grown) == Overlay(Fit(from, size), pos, d))
  {
    hide Fit, Overlay;
    var grown := if size < pos + |d| then pos + |d| else size;
    assert Fit(Overlay(from, pos, d), grown) == Overlay(Fit(from, size), pos, d);
    assert d == [] ==> Fit(from, grown) == Overlay(Fit(from, size), pos, d);
  }

  /** How far the bytes can be fetched. */
  function Reach(im: Image): nat {
    if im.inFile then |im.file| else |im.data|
  }

  /**
   * What a fetch of `m` bytes does: it gets bytes exactly if the file or the block reaches so far, and these
   * are the contents, followed by zeros.
   */
  lemma FetchOutcome(im: Image, pos: nat, m: nat)
    requires Valid(im)
    ensures var r := Fetch(im, pos, m);
      && (r.Got? <==> m == 0 || pos + m <= Reach(im))
      && (r.Spins? <==> m != 0 && Reach(im) < pos + m && im.inFile)
      && (r.Got? && m != 0 ==> r.bytes == Fit(Contents(im), pos + m)[pos..])
  {
    hide Fit;
    if m != 0 && pos + m <= Reach(im) {
      assert Fetch(im, pos, m).bytes == Fit(Contents(im), pos + m)[pos..];
    }
  }

  /** Up to the size of a readable blob a fetch gets the contents, wherever they are. */
  lemma FetchInside(im: Image, pos: nat, m: nat)
    requires Valid(im) && Readable(im) && (m == 0 || pos + m <= im.size)
    ensures Fetch(im, pos, m) == Got(if m == 0 then [] else Contents(im)[pos..pos + m])
  {
    FetchOutcome(im, pos, m);
    hide Fetch, Fit, Valid;
    if m != 0 {
      assert Fit(Contents(im), pos + m)[pos..] == Contents(im)[pos..pos + m];
    }
  }

  /** Of what was asked for, as much as there is. */
  function Length(size: nat, pos: nat, n: nat): nat {
    if size <= pos then 0 else if n > size - pos then size - pos else n
  }

  lemma SliceLength(c: seq<Octet>, pos: nat, n: nat)
    ensures |Slice(c, pos, n)| == Length(|c|, pos, n)
    ensures Slice(c, pos, n) == if Length(|c|, pos, n) == 0 then [] else c[pos..pos + Length(|c|, pos, n)]
  {
  }

  /** A fetch gets the slice that was asked for exactly if the length settled on is still the right one. */
  lemma FetchIsSlice(im: Image, pos: nat, n: nat, m: nat)
    requires Valid(im) && Readable(im)
    ensures Fetch(im, pos, m) == Got(Slice(Contents(im), pos, n)) <==> m == Length(im.size, pos, n)
  {
    SliceLength(Contents(im), pos, n);
    FetchOutcome(im, pos, m);
    hide Fetch, Valid, Slice, Contents;
    if m == Length(im.size, pos, n) {
      FetchInside(im, pos, m);
    }
  }

  /** Whether a blob has been swapped out can be seen exactly by reads that reach beyond its size. */
  lemma SwapOutShows(im: Image, pos: nat, m: nat)
    requires Valid(im) && !im.inFile && !im.storageLocked
    ensures Fetch(SwappedOut(im), pos, m) == Fetch(im, pos, m) <==> m == 0 || pos + m <= im.size
  {
    SwapOutInvisible(im);
    FetchOutcome(im, pos, m);
    FetchOutcome(SwappedOut(im), pos, m);
    assert |SwappedOut(im).file| == im.size;
    hide Fetch, Valid, Fit, FileWrite;
  }

  /** All reads that nothing comes between return the bytes of the plain byte string if and only if the blob is readable. */
  lemma GetCopyIsSlice(im: Image)
    requires Valid(im)
    ensures (forall pos: nat, n: nat :: GetCopy(im, pos, n) == Got(Slice(Contents(im), pos, n))) <==> Readable(im)
  {
    if Readable(im) {
      forall pos: nat, n: nat
        ensures GetCopy(im, pos, n) == Got(Slice(Contents(im), pos, n))
      {
        FetchIsSlice(im, pos, n, Length(im.size, pos, n));
      }
    } else {
      assert GetCopy(im, 0, im.size) == Spins;
    }
  }

  /**
   * The failing case exists: swap out two bytes reserved in a block of four, then add zero bytes at
   * position 4.  The blob now claims four bytes, its file has two, and reading it never ends.
   */
  lemma EmptyAppendCanSpin()
    ensures
      var a := Stored(Committed(FreshImage, 4), 0, [7, 7]);
      var b := Stored(SwappedOut(a), 4, []);
      && Valid(a) && Valid(SwappedOut(a)) && Valid(b)
      && GetCopy(SwappedOut(a), 0, 4) == Got([7, 7])
      && GetCopy(b, 0, 4) == Spins
  {
    var c := Committed(FreshImage, 4);
    var a := Stored(c, 0, [7, 7]);
    StoreOverlays(c, 0, [7, 7]);
    SwapOutInvisible(a);
    assert SwappedOut(a).file == [7, 7];
    StoreOverlays(SwappedOut(a), 4, []);
  }
}
