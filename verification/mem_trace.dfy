/**
 * The allocation tracer of src/memtrace.c.
 *
 * One static array holds all entries; a free list and 32768 hash chains are threaded through it by
 * index.  One lock guards the free list and the counters, another each chain, so between its two
 * critical sections a thread holds an entry that is on no list.  Each step below is one critical
 * section, or the unlocked filling of a held entry.
 */
module MemTrace {
  import opened Sequences

  const EOL: nat := 0xFFFF_FFFF
  const WORD: nat := 0x1_0000_0000
  const HASH_SIZE: nat := 32768
  const HEAP_SIZE: nat := 300000

  datatype Entry = Entry(next: nat, ptr: nat, size: int)

  /** The program's variables. */
  datatype Table = Table(heap: seq<Entry>, heads: seq<nat>, freeList: nat, blockCount: nat, allocatedSize: nat)

  /** Where an index is: on the free list, on a chain, or in one thread's hands (blank or filled in). */
  datatype Place = Free | Bucket(h: nat) | Blank | Filled

  /** The lists spelled out, the place of each index, and the size charged for it. */
  datatype Layout = Layout(free: seq<nat>, chains: seq<seq<nat>>, place: seq<Place>, charged: seq<int>)

  datatype State = State(table: Table, layout: Layout)

  /** z_mem_trace_hash: (ptr & (32767 << 3)) >> 3. */
  function Hash(ptr: nat): (h: nat)
    ensures h < HASH_SIZE
  {
    ptr / 8 % HASH_SIZE
  }

  /** Two pointers share a bucket exactly if they agree in bits 3 to 17. */
  lemma HashIs(high: nat, middle: nat, low: nat)
    requires middle < 0x8000 && low < 8
    ensures Hash(high * 0x40000 + middle * 8 + low) == middle
  {
    var ptr := high * 0x40000 + middle * 8 + low;
    assert ptr == (high * 0x8000 + middle) * 8 + low;
    assert ptr / 8 == high * 0x8000 + middle;
  }

  // ----- the shape -----

  /** What follows position `k` of a list. */
  function Next(l: seq<nat>, k: nat): nat {
    if k + 1 < |l| then l[k + 1] else EOL
  }

  ghost predicate Linked(heap: seq<Entry>, head: nat, l: seq<nat>) {
    && head == (if l == [] then EOL else l[0])
    && forall k :: 0 <= k < |l| ==> l[k] < |heap| && heap[l[k]].next == Next(l, k)
  }

  /** `l` lists exactly the indices placed at `p`, each once. */
  ghost predicate Lists(place: seq<Place>, p: Place, l: seq<nat>) {
    && Distinct(l)
    && (forall i :: i in l ==> i < |place| && place[i] == p)
    && (forall i :: 0 <= i < |place| && place[i] == p ==> i in l)
  }

  ghost predicate ChainOk(s: State, h: nat)
    requires h < |s.table.heads| == |s.layout.chains|
  {
    && Linked(s.table.heap, s.table.heads[h], s.layout.chains[h])
    && Lists(s.layout.place, Bucket(h), s.layout.chains[h])
    && forall i :: i in s.layout.chains[h] ==> Hash(s.table.heap[i].ptr) == h
  }

  ghost predicate Sized(s: State) {
    && |s.layout.place| == |s.layout.charged| == |s.table.heap| < EOL
    && |s.table.heads| == |s.layout.chains| == HASH_SIZE
  }

  ghost predicate FreeOk(s: State) {
    && Linked(s.table.heap, s.table.freeList, s.layout.free)
    && Lists(s.layout.place, Free, s.layout.free)
  }

  ghost predicate ChainsOk(s: State)
    requires Sized(s)
  {
    forall h :: 0 <= h < HASH_SIZE ==> ChainOk(s, h)
  }

  ghost predicate ChargesOk(s: State)
    requires Sized(s)
  {
    && (forall i :: 0 <= i < |s.table.heap| ==>
         match s.layout.place[i]
         case Free => s.layout.charged[i] == 0
         case Blank => true
         case _ => s.layout.charged[i] == s.table.heap[i].size)
    && (forall i :: 0 <= i < |s.table.heap| && s.layout.place[i].Bucket? ==> s.layout.place[i].h < HASH_SIZE)
  }

  function Sum(c: seq<int>): int {
    if c == [] then 0 else Sum(c[..|c| - 1]) + c[|c| - 1]
  }

  ghost predicate CountersOk(s: State) {
    && s.table.blockCount + |s.layout.free| == |s.table.heap|
    && s.table.allocatedSize == Sum(s.layout.charged) % WORD
  }

  ghost predicate Good(s: State) {
    Sized(s) && FreeOk(s) && ChainsOk(s) && ChargesOk(s) && CountersOk(s)
  }

  // ----- the critical sections -----

  /** z_mem_trace_add under mem_trace_lock. */
  ghost function Take(s: State, size: int): State
    requires Good(s) && s.table.freeList != EOL
  {
    var i := s.table.freeList;
    State(s.table.(freeList := s.table.heap[i].next, blockCount := (s.table.blockCount + 1) % WORD,
                   allocatedSize := (s.table.allocatedSize + size) % WORD),
          s.layout.(free := s.layout.free[1..], place := s.layout.place[i := Blank], charged := s.layout.charged[i := size]))
  }

  /** The unlocked stores to the entry just taken. */
  ghost function Fill(s: State, i: nat, ptr: nat): State
    requires Sized(s) && i < |s.table.heap|
  {
    State(s.table.(heap := s.table.heap[i := s.table.heap[i].(ptr := ptr, size := s.layout.charged[i])]),
          s.layout.(place := s.layout.place[i := Filled]))
  }

  /** z_mem_trace_add under the chain's lock. */
  ghost function Link(s: State, i: nat): State
    requires Sized(s) && i < |s.table.heap|
  {
    var h := Hash(s.table.heap[i].ptr);
    State(s.table.(heap := s.table.heap[i := s.table.heap[i].(next := s.table.heads[h])], heads := s.table.heads[h := i]),
          s.layout.(chains := s.layout.chains[h := [i] + s.layout.chains[h]], place := s.layout.place[i := Bucket(h)]))
  }

  /** The position of the first entry for `ptr` in a chain, or its length. */
  ghost function Find(heap: seq<Entry>, l: seq<nat>, ptr: nat): (k: nat)
    requires forall k :: 0 <= k < |l| ==> l[k] < |heap|
    ensures k <= |l|
    ensures k < |l| ==> heap[l[k]].ptr == ptr
    ensures forall j :: 0 <= j < k ==> heap[l[j]].ptr != ptr
  {
    if l == [] || heap[l[0]].ptr == ptr then 0 else 1 + Find(heap, l[1..], ptr)
  }

  /** A list without its element at `k`. */
  function Cut(l: seq<nat>, k: nat): (r: seq<nat>)
    requires k < |l|
    ensures |r| == |l| - 1
    ensures forall j :: 0 <= j < |r| ==> r[j] == l[if j < k then j else j + 1]
    ensures forall i :: i in l && i != l[k] ==> i in r
    ensures forall i :: i in r ==> i in l
  {
    assert l == l[..k] + [l[k]] + l[k + 1..];
    l[..k] + l[k + 1..]
  }

  function ChainFor(s: State, ptr: nat): seq<nat>
    requires |s.layout.chains| == HASH_SIZE
  {
    s.layout.chains[Hash(ptr)]
  }

  ghost predicate Has(s: State, ptr: nat)
    requires Good(s)
  {
    assert ChainOk(s, Hash(ptr));
    Find(s.table.heap, ChainFor(s, ptr), ptr) < |ChainFor(s, ptr)|
  }

  /** The entry that answers for a traced pointer. */
  ghost function EntryOf(s: State, ptr: nat): (i: nat)
    requires Good(s) && Has(s, ptr)
    ensures i < |s.table.heap| && s.layout.place[i] == Bucket(Hash(ptr)) && s.table.heap[i].ptr == ptr
    ensures s.layout.charged[i] == s.table.heap[i].size
  {
    assert ChainOk(s, Hash(ptr));
    ChainFor(s, ptr)[Find(s.table.heap, ChainFor(s, ptr), ptr)]
  }

  /** z_mem_trace_del under the chain's lock, when the pointer is there. */
  ghost function Unlink(s: State, ptr: nat): State
    requires Good(s) && Has(s, ptr)
  {
    var h := Hash(ptr);
    assert ChainOk(s, h);
    var l := s.layout.chains[h];
    var k := Find(s.table.heap, l, ptr);
    var after := s.table.heap[l[k]].next;
    var table :=
      if k == 0 then s.table.(heads := s.table.heads[h := after])
      else s.table.(heap := s.table.heap[l[k - 1] := s.table.heap[l[k - 1]].(next := after)]);
    State(table, s.layout.(chains := s.layout.chains[h := Cut(l, k)], place := s.layout.place[l[k] := Filled]))
  }

  /** z_mem_trace_del under mem_trace_lock. */
  ghost function Release(s: State, i: nat): State
    requires Good(s) && i < |s.table.heap| && s.layout.place[i] == Filled
  {
    State(s.table.(heap := s.table.heap[i := s.table.heap[i].(next := s.table.freeList)], freeList := i,
                   blockCount := (s.table.blockCount - 1) % WORD,
                   allocatedSize := (s.table.allocatedSize - s.table.heap[i].size) % WORD),
          s.layout.(free := [i] + s.layout.free, place := s.layout.place[i := Free], charged := s.layout.charged[i := 0]))
  }

  // ----- each keeps the shape -----

  lemma {:induction false} SumUpdate(c: seq<int>, i: nat, v: int)
    requires i < |c|
    ensures Sum(c[i := v]) == Sum(c) - c[i] + v
  {
    var n := |c| - 1;
    if i == n {
      assert c[i := v][..n] == c[..n];
    } else {
      assert c[i := v][..n] == c[..n][i := v];
      SumUpdate(c[..n], i, v);
    }
  }

  /** A list is undisturbed by writing to an entry `w` that is not on it, and by moving such an index. */
  lemma ListUndisturbed(s: State, v: State, i: nat, w: nat, p: Place, head: nat, l: seq<nat>)
    requires |s.table.heap| == |v.table.heap| == |s.layout.place| && i < |s.table.heap| && w < |s.table.heap|
    requires |v.layout.place| == |s.layout.place| && v.layout.place == s.layout.place[i := v.layout.place[i]]
    requires forall j :: 0 <= j < |s.table.heap| && j != w ==> v.table.heap[j].next == s.table.heap[j].next
    requires Linked(s.table.heap, head, l) && Lists(s.layout.place, p, l)
    requires s.layout.place[i] != p && v.layout.place[i] != p && s.layout.place[w] != p
    ensures Linked(v.table.heap, head, l) && Lists(v.layout.place, p, l)
  {
  }

  /** Taking the head off a list. */
  lemma ListPopped(s: State, v: State, p: Place, head: nat, l: seq<nat>)
    requires |s.table.heap| == |v.table.heap| == |s.layout.place| && l != []
    requires l[0] < |v.layout.place| == |s.layout.place| && v.layout.place == s.layout.place[l[0] := v.layout.place[l[0]]]
    requires v.table.heap == s.table.heap
    requires Linked(s.table.heap, head, l) && Lists(s.layout.place, p, l) && v.layout.place[l[0]] != p
    ensures Linked(v.table.heap, s.table.heap[l[0]].next, l[1..]) && Lists(v.layout.place, p, l[1..])
  {
    LinkedTail(s.table.heap, head, l);
    hide Linked;
    assert l == [l[0]] + l[1..];
  }

  lemma LinkedTail(heap: seq<Entry>, head: nat, l: seq<nat>)
    requires Linked(heap, head, l) && l != []
    ensures Linked(heap, heap[l[0]].next, l[1..])
  {
    var rest := l[1..];
    forall k | 0 <= k < |rest|
      ensures rest[k] < |heap| && heap[rest[k]].next == Next(rest, k)
    {
      assert rest[k] == l[k + 1] && Next(rest, k) == Next(l, k + 1);
    }
  }

  /** Pushing a held index onto a list. */
  lemma ListPushed(s: State, v: State, p: Place, i: nat, head: nat, l: seq<nat>)
    requires |s.table.heap| == |v.table.heap| == |s.layout.place| && i < |s.table.heap|
    requires v.layout.place == s.layout.place[i := p] && s.layout.place[i] != p
    requires forall j :: 0 <= j < |s.table.heap| && j != i ==> v.table.heap[j].next == s.table.heap[j].next
    requires v.table.heap[i].next == head
    requires Linked(s.table.heap, head, l) && Lists(s.layout.place, p, l)
    ensures Linked(v.table.heap, i, [i] + l) && Lists(v.layout.place, p, [i] + l)
  {
    assert i !in l;
    LinkedPushed(s.table.heap, v.table.heap, i, l);
    hide Linked;
  }

  lemma LinkedPushed(heap: seq<Entry>, after: seq<Entry>, i: nat, l: seq<nat>)
    requires |heap| == |after| && i < |heap| && i !in l
    requires forall j :: 0 <= j < |heap| && j != i ==> after[j].next == heap[j].next
    requires Linked(heap, after[i].next, l)
    ensures Linked(after, i, [i] + l)
  {
    var longer := [i] + l;
    forall k | 0 <= k < |longer|
      ensures longer[k] < |after| && after[longer[k]].next == Next(longer, k)
    {
      if k > 0 {
        assert longer[k] == l[k - 1] != i && Next(longer, k) == Next(l, k - 1);
      }
    }
  }

  lemma DistinctCut(l: seq<nat>, k: nat)
    requires Distinct(l) && k < |l|
    ensures Distinct(Cut(l, k)) && forall j :: 0 <= j < |l| - 1 ==> Cut(l, k)[j] != l[k]
  {
    var shorter := Cut(l, k);
    hide Cut;
    forall i, j | 0 <= i < j < |shorter|
      ensures shorter[i] != shorter[j]
    {
      assert shorter[i] == l[if i < k then i else i + 1] && shorter[j] == l[if j < k then j else j + 1];
    }
    forall j | 0 <= j < |shorter|
      ensures shorter[j] != l[k]
    {
      assert shorter[j] == l[if j < k then j else j + 1];
    }
  }

  /** There are at most `n` distinct numbers below `n`. */
  lemma {:induction false} AtMost(l: seq<nat>, n: nat)
    requires Distinct(l) && forall k :: 0 <= k < |l| ==> l[k] < n
    ensures |l| <= n
  {
    if l != [] {
      assert l[0] < n;
      if n - 1 in l {
        var k :| 0 <= k < |l| && l[k] == n - 1;
        DistinctCut(l, k);
        AtMost(Cut(l, k), n - 1);
      } else {
        AtMost(l, n - 1);
      }
    }
  }

  /** The chains are undisturbed by what happens to an index that is on none of them. */
  lemma ChainsUndisturbed(s: State, v: State, i: nat)
    requires Good(s) && Sized(v) && i < |s.table.heap| == |v.table.heap|
    requires v.table.heads == s.table.heads && v.layout.chains == s.layout.chains
    requires v.layout.place == s.layout.place[i := v.layout.place[i]]
    requires !s.layout.place[i].Bucket? && !v.layout.place[i].Bucket?
    requires forall j :: 0 <= j < |s.table.heap| && j != i ==> v.table.heap[j] == s.table.heap[j]
    ensures ChainsOk(v)
  {
    forall h | 0 <= h < HASH_SIZE
      ensures ChainOk(v, h)
    {
      assert ChainOk(s, h);
      ListUndisturbed(s, v, i, i, Bucket(h), s.table.heads[h], s.layout.chains[h]);
    }
  }

  /** There is a free entry exactly if fewer blocks than entries are counted. */
  lemma FullWhenAllAreCounted(s: State)
    requires Good(s)
    ensures s.table.freeList == EOL <==> s.table.blockCount == |s.table.heap|
  {
    hide ChainsOk, ChargesOk, Lists, Sum;
    if s.layout.free != [] {
      assert s.layout.free[0] < |s.table.heap|;
    }
  }

  lemma TakeKeepsFree(s: State, size: int)
    requires Good(s) && s.table.freeList != EOL
    ensures s.table.freeList < |s.table.heap| && s.layout.place[s.table.freeList] == Free
    ensures FreeOk(Take(s, size)) && |s.layout.free| == |Take(s, size).layout.free| + 1
  {
    hide ChainsOk, ChargesOk, CountersOk;
    assert s.layout.free[0] == s.table.freeList;
    ListPopped(s, Take(s, size), Free, s.table.freeList, s.layout.free);
  }

  lemma TakeKeeps(s: State, size: int)
    requires Good(s) && s.table.freeList != EOL
    ensures Good(Take(s, size))
  {
    hide FreeOk, ChainsOk, Sum;
    TakeKeepsFree(s, size);
    ChainsUndisturbed(s, Take(s, size), s.table.freeList);
    SumUpdate(s.layout.charged, s.table.freeList, size);
  }

  lemma FillKeeps(s: State, i: nat, ptr: nat)
    requires Good(s) && i < |s.table.heap| && s.layout.place[i] == Blank
    ensures Good(Fill(s, i, ptr))
  {
    hide Linked, Lists, Sum, ChainsOk;
    var v := Fill(s, i, ptr);
    ListUndisturbed(s, v, i, i, Free, s.table.freeList, s.layout.free);
    ChainsUndisturbed(s, v, i);
  }

  lemma LinkKeeps(s: State, i: nat)
    requires Good(s) && i < |s.table.heap| && s.layout.place[i] == Filled
    ensures Good(Link(s, i))
  {
    hide Linked, Lists, Sum;
    var v := Link(s, i);
    ListUndisturbed(s, v, i, i, Free, s.table.freeList, s.layout.free);
    forall h | 0 <= h < HASH_SIZE
      ensures ChainOk(v, h)
    {
      assert ChainOk(s, h);
      if h == Hash(s.table.heap[i].ptr) {
        ListPushed(s, v, Bucket(h), i, s.table.heads[h], s.layout.chains[h]);
        assert v.layout.chains[h] == [i] + s.layout.chains[h];
      } else {
        ListUndisturbed(s, v, i, i, Bucket(h), s.table.heads[h], s.layout.chains[h]);
      }
      assert forall j :: j in s.layout.chains[h] ==> j < |s.table.heap| by {
        Listed(s.layout.place, Bucket(h), s.layout.chains[h]);
      }
    }
  }

  lemma Listed(place: seq<Place>, p: Place, l: seq<nat>)
    requires Lists(place, p, l)
    ensures forall i :: i in l ==> i < |place|
  {
  }

  lemma ReleaseKeepsFree(s: State, i: nat)
    requires Good(s) && i < |s.table.heap| && s.layout.place[i] == Filled
    ensures FreeOk(Release(s, i)) && |s.layout.free| < |s.table.heap|
  {
    hide ChainsOk, ChargesOk, CountersOk;
    ListPushed(s, Release(s, i), Free, i, s.table.freeList, s.layout.free);
    AtMost([i] + s.layout.free, |s.table.heap|);
  }

  lemma ReleaseKeeps(s: State, i: nat)
    requires Good(s) && i < |s.table.heap| && s.layout.place[i] == Filled
    ensures Good(Release(s, i))
  {
    hide FreeOk, ChainsOk, Sum;
    ReleaseKeepsFree(s, i);
    ChainsUndisturbed(s, Release(s, i), i);
    SumUpdate(s.layout.charged, i, 0);
  }

  /** Taking an index out of the middle of a list: the entry before it is redirected. */
  lemma LinkedCut(heap: seq<Entry>, after: seq<Entry>, head: nat, l: seq<nat>, k: nat)
    requires |heap| == |after| && 0 < k < |l| && Linked(heap, head, l) && Distinct(l)
    requires l[k - 1] < |heap| && l[k] < |heap| && after[l[k - 1]].next == heap[l[k]].next
    requires forall j :: 0 <= j < |heap| && j != l[k - 1] ==> after[j].next == heap[j].next
    ensures Linked(after, head, Cut(l, k))
  {
    var shorter := Cut(l, k);
    hide Cut;
    forall j | 0 <= j < |shorter|
      ensures shorter[j] < |after| && after[shorter[j]].next == Next(shorter, j)
    {
      NextInCut(l, k, j);
      var i := if j < k then j else j + 1;
      assert shorter[j] == l[i] && heap[l[i]].next == Next(l, i);
      if j == k - 1 {
        assert heap[l[k]].next == Next(l, k);
      } else {
        assert l[i] != l[k - 1];
      }
    }
  }

  lemma NextInCut(l: seq<nat>, k: nat, j: nat)
    requires 0 < k < |l| && j < |l| - 1
    ensures Next(Cut(l, k), j) == Next(l, if j + 1 < k then j else j + 1)
  {
    hide Cut;
  }

  lemma ListCut(place: seq<Place>, p: Place, l: seq<nat>, k: nat, q: Place)
    requires Lists(place, p, l) && k < |l| && q != p
    ensures l[k] < |place| && Lists(place[l[k] := q], p, Cut(l, k))
  {
    DistinctCut(l, k);
    hide Cut;
    assert l[k] in l;
  }

  lemma UnlinkLinked(s: State, ptr: nat)
    requires Good(s) && Has(s, ptr)
    ensures Sized(Unlink(s, ptr))
    ensures Linked(Unlink(s, ptr).table.heap, Unlink(s, ptr).table.heads[Hash(ptr)], ChainFor(Unlink(s, ptr), ptr))
  {
    var h, l := Hash(ptr), ChainFor(s, ptr);
    assert ChainOk(s, h);
    hide FreeOk, ChainsOk, ChargesOk, CountersOk, Find;
    var k := Find(s.table.heap, l, ptr);
    if k == 0 {
      LinkedTail(s.table.heap, s.table.heads[h], l);
      assert Cut(l, 0) == l[1..];
    } else {
      LinkedCut(s.table.heap, Unlink(s, ptr).table.heap, s.table.heads[h], l, k);
    }
  }

  lemma UnlinkChain(s: State, ptr: nat)
    requires Good(s) && Has(s, ptr)
    ensures Sized(Unlink(s, ptr)) && ChainOk(Unlink(s, ptr), Hash(ptr))
  {
    var h, l := Hash(ptr), ChainFor(s, ptr);
    assert ChainOk(s, h);
    var k := Find(s.table.heap, l, ptr);
    ListCut(s.layout.place, Bucket(h), l, k, Filled);
    var w := UnlinkWrites(s, ptr);
    UnlinkLinked(s, ptr);
    hide FreeOk, ChainsOk, ChargesOk, CountersOk, Find, Linked, Lists, Cut;
  }

  /** Unlinking writes to one entry of the chain, or to its head, and moves one index. */
  lemma UnlinkWrites(s: State, ptr: nat) returns (w: nat)
    requires Good(s) && Has(s, ptr)
    ensures w < |s.table.heap| && s.layout.place[w] == Bucket(Hash(ptr))
    ensures var v := Unlink(s, ptr);
      && |v.table.heap| == |s.table.heap|
      && (forall j :: 0 <= j < |s.table.heap| ==>
            v.table.heap[j] == if j == w then s.table.heap[j].(next := v.table.heap[j].next) else s.table.heap[j])
      && v.layout.place == s.layout.place[EntryOf(s, ptr) := Filled]
  {
    hide FreeOk, ChargesOk, CountersOk, Cut;
    assert ChainOk(s, Hash(ptr));
    var l := ChainFor(s, ptr);
    var k := Find(s.table.heap, l, ptr);
    w := if k > 0 then l[k - 1] else EntryOf(s, ptr);
    assert w in l;
  }

  lemma UnlinkKeepsFree(s: State, ptr: nat)
    requires Good(s) && Has(s, ptr)
    ensures FreeOk(Unlink(s, ptr))
  {
    var w := UnlinkWrites(s, ptr);
    var i := EntryOf(s, ptr);
    hide Linked, Lists, ChainsOk, ChargesOk, CountersOk, Find, Cut, Has, EntryOf;
    ListUndisturbed(s, Unlink(s, ptr), i, w, Free, s.table.freeList, s.layout.free);
  }

  lemma UnlinkKeepsChains(s: State, ptr: nat)
    requires Good(s) && Has(s, ptr)
    ensures Sized(Unlink(s, ptr)) && ChainsOk(Unlink(s, ptr))
  {
    var v := Unlink(s, ptr);
    var i := EntryOf(s, ptr);
    var w := UnlinkWrites(s, ptr);
    UnlinkChain(s, ptr);
    hide Linked, Lists, FreeOk, ChargesOk, CountersOk, Find, Cut, Has, EntryOf;
    forall g | 0 <= g < HASH_SIZE
      ensures ChainOk(v, g)
    {
      assert ChainOk(s, g);
      if g != Hash(ptr) {
        ListUndisturbed(s, v, i, w, Bucket(g), s.table.heads[g], s.layout.chains[g]);
      }
    }
  }

  lemma UnlinkKeeps(s: State, ptr: nat)
    requires Good(s) && Has(s, ptr)
    ensures Good(Unlink(s, ptr))
  {
    UnlinkKeepsFree(s, ptr);
    UnlinkKeepsChains(s, ptr);
    var w := UnlinkWrites(s, ptr);
    hide FreeOk, ChainsOk, Sum, Find, Cut, Has, EntryOf;
  }

  // ----- any interleaving of any number of threads -----

  datatype Step =
    | TakeStep(size: int)
    | FillStep(i: nat, ptr: nat)
    | LinkStep(i: nat, ptr: nat, size: int)
    | UnlinkStep(ptr: nat)
    | ReleaseStep(i: nat)

  /** A thread works only on entries it holds; holding one is being past the step that gave it out. */
  ghost predicate Enabled(s: State, step: Step)
    requires Good(s)
  {
    match step
    case TakeStep(_) => s.table.freeList != EOL
    case FillStep(i, _) => i < |s.table.heap| && s.layout.place[i] == Blank
    case LinkStep(i, ptr, size) =>
      i < |s.table.heap| && s.layout.place[i] == Filled && s.table.heap[i].ptr == ptr && s.table.heap[i].size == size
    case UnlinkStep(ptr) => Has(s, ptr)
    case ReleaseStep(i) => i < |s.table.heap| && s.layout.place[i] == Filled
  }

  /**
   * Nobody is stuck: there is an entry to take while fewer blocks than entries are counted, who holds an entry
   * can go on with it, and a pointer that has sizes can be unlinked.
   */
  lemma ThreadsCanGoOn(s: State, size: int, ptr: nat, i: nat)
    requires Good(s) && i < |s.table.heap|
    ensures s.table.blockCount < |s.table.heap| ==> Enabled(s, TakeStep(size))
    ensures s.layout.place[i] == Blank ==> Enabled(s, FillStep(i, ptr))
    ensures s.layout.place[i] == Filled ==>
      Enabled(s, LinkStep(i, s.table.heap[i].ptr, s.table.heap[i].size)) && Enabled(s, ReleaseStep(i))
    ensures Sizes(s, ptr) != [] ==> Enabled(s, UnlinkStep(ptr))
  {
    FullWhenAllAreCounted(s);
    HasIsNonempty(s, ptr);
    hide Good, Has, Sizes;
  }

  ghost function Apply(s: State, step: Step): (v: State)
    requires Good(s) && Enabled(s, step)
    ensures Good(v)
  {
    match step
    case TakeStep(size) => TakeKeeps(s, size); Take(s, size)
    case FillStep(i, ptr) => FillKeeps(s, i, ptr); Fill(s, i, ptr)
    case LinkStep(i, _, _) => LinkKeeps(s, i); Link(s, i)
    case UnlinkStep(ptr) => UnlinkKeeps(s, ptr); Unlink(s, ptr)
    case ReleaseStep(i) => ReleaseKeeps(s, i); Release(s, i)
  }

  ghost predicate Possible(s: State, run: seq<Step>)
    requires Good(s)
    decreases |run|
  {
    run != [] ==> Enabled(s, run[0]) && Possible(Apply(s, run[0]), run[1..])
  }

  ghost function After(s: State, run: seq<Step>): (v: State)
    requires Good(s) && Possible(s, run)
    ensures Good(v)
    decreases |run|
  {
    if run == [] then s else After(Apply(s, run[0]), run[1..])
  }

  /** Every index is on the free list, on one chain, or on no list at all; never on two. */
  lemma OnePlaceEach(s: State, i: nat)
    requires Good(s) && i < |s.table.heap|
    ensures i in s.layout.free <==> s.layout.place[i] == Free
    ensures forall h :: 0 <= h < HASH_SIZE ==> (i in s.layout.chains[h] <==> s.layout.place[i] == Bucket(h))
    ensures s.layout.place[i].Bucket? ==> s.layout.place[i].h == Hash(s.table.heap[i].ptr)
  {
    forall h | 0 <= h < HASH_SIZE
      ensures i in s.layout.chains[h] <==> s.layout.place[i] == Bucket(h)
    {
      assert ChainOk(s, h);
    }
    if s.layout.place[i].Bucket? {
      assert ChainOk(s, s.layout.place[i].h);
    }
  }

  // ----- what the lists mean: a stack of sizes per pointer -----

  function SizesIn(heap: seq<Entry>, l: seq<nat>, ptr: nat): seq<int> {
    if l == [] then []
    else
      var rest := SizesIn(heap, l[1..], ptr);
      if l[0] < |heap| && heap[l[0]].ptr == ptr then [heap[l[0]].size] + rest else rest
  }

  /** The sizes traced for a pointer, latest first. */
  function Sizes(s: State, ptr: nat): seq<int>
    requires |s.layout.chains| == HASH_SIZE
  {
    SizesIn(s.table.heap, ChainFor(s, ptr), ptr)
  }

  lemma {:induction false} SizesSame(heap: seq<Entry>, after: seq<Entry>, l: seq<nat>, ptr: nat)
    requires |heap| == |after|
    requires forall i :: 0 <= i < |heap| && i in l ==> after[i].ptr == heap[i].ptr && after[i].size == heap[i].size
    ensures SizesIn(after, l, ptr) == SizesIn(heap, l, ptr)
  {
    if l != [] {
      SizesSame(heap, after, l[1..], ptr);
    }
  }

  lemma {:induction false} SizesConcat(heap: seq<Entry>, a: seq<nat>, b: seq<nat>, ptr: nat)
    ensures SizesIn(heap, a + b, ptr) == SizesIn(heap, a, ptr) + SizesIn(heap, b, ptr)
  {
    if a == [] {
      assert a + b == b;
    } else {
      assert (a + b)[1..] == a[1..] + b && (a + b)[0] == a[0];
      SizesConcat(heap, a[1..], b, ptr);
      if a[0] < |heap| && heap[a[0]].ptr == ptr {
        Associate([heap[a[0]].size], SizesIn(heap, a[1..], ptr), SizesIn(heap, b, ptr));
      }
    }
  }

  lemma {:induction false} SizesNone(heap: seq<Entry>, l: seq<nat>, ptr: nat)
    requires forall k :: 0 <= k < |l| ==> l[k] < |heap| && heap[l[k]].ptr != ptr
    ensures SizesIn(heap, l, ptr) == []
  {
    if l != [] {
      SizesNone(heap, l[1..], ptr);
    }
  }

  /** Cutting one entry out of a list takes its size out of its pointer's sizes. */
  lemma SizesCut(heap: seq<Entry>, l: seq<nat>, k: nat, ptr: nat)
    requires k < |l| && l[k] < |heap|
    ensures SizesIn(heap, l, ptr) ==
      SizesIn(heap, l[..k], ptr) + (if heap[l[k]].ptr == ptr then [heap[l[k]].size] else []) + SizesIn(heap, l[k + 1..], ptr)
    ensures SizesIn(heap, Cut(l, k), ptr) == SizesIn(heap, l[..k], ptr) + SizesIn(heap, l[k + 1..], ptr)
  {
    SizesConcat(heap, l[..k], l[k..], ptr);
    assert l == l[..k] + l[k..];
    assert l[k..][1..] == l[k + 1..];
    Associate(SizesIn(heap, l[..k], ptr), [heap[l[k]].size], SizesIn(heap, l[k + 1..], ptr));
    SizesConcat(heap, l[..k], l[k + 1..], ptr);
    assert Cut(l, k) == l[..k] + l[k + 1..];
  }

  /** Looking a pointer up finds the top of its stack. */
  lemma FindIsTop(heap: seq<Entry>, l: seq<nat>, ptr: nat)
    requires forall k :: 0 <= k < |l| ==> l[k] < |heap|
    ensures var k := Find(heap, l, ptr);
      if k < |l| then SizesIn(heap, l, ptr) != [] && SizesIn(heap, l, ptr)[0] == heap[l[k]].size
      else SizesIn(heap, l, ptr) == []
    ensures Find(heap, l, ptr) < |l| ==> SizesIn(heap, Cut(l, Find(heap, l, ptr)), ptr) == SizesIn(heap, l, ptr)[1..]
  {
    var k := Find(heap, l, ptr);
    SizesNone(heap, l[..k], ptr);
    if k < |l| {
      SizesCut(heap, l, k, ptr);
    } else {
      assert l[..k] == l;
    }
  }

  lemma HasIsNonempty(s: State, ptr: nat)
    requires Good(s)
    ensures Has(s, ptr) <==> Sizes(s, ptr) != []
    ensures Has(s, ptr) ==> Sizes(s, ptr)[0] == s.table.heap[EntryOf(s, ptr)].size
  {
    assert ChainOk(s, Hash(ptr));
    FindIsTop(s.table.heap, ChainFor(s, ptr), ptr);
  }

  /** What a step does to the stack of `q`: only linking and unlinking matter. */
  function PlainStep(stack: seq<int>, step: Step, q: nat): seq<int> {
    match step
    case LinkStep(_, ptr, size) => if ptr == q then [size] + stack else stack
    case UnlinkStep(ptr) => if ptr == q && stack != [] then stack[1..] else stack
    case _ => stack
  }

  function PlainRun(stack: seq<int>, run: seq<Step>, q: nat): seq<int>
    decreases |run|
  {
    if run == [] then stack else PlainRun(PlainStep(stack, run[0], q), run[1..], q)
  }

  lemma HeldSteps(s: State, v: State, i: nat, q: nat)
    requires Good(s) && Good(v) && i < |s.table.heap| == |v.table.heap| && v.layout.chains == s.layout.chains
    requires !s.layout.place[i].Bucket?
    requires forall j :: 0 <= j < |s.table.heap| && j != i ==> v.table.heap[j] == s.table.heap[j]
    ensures Sizes(v, q) == Sizes(s, q)
  {
    assert ChainOk(s, Hash(q)) && ChainOk(v, Hash(q));
    SizesSame(s.table.heap, v.table.heap, ChainFor(s, q), q);
  }

  lemma LinkPushes(s: State, i: nat, q: nat)
    requires Good(s) && i < |s.table.heap| && s.layout.place[i] == Filled && Good(Link(s, i))
    ensures Sizes(Link(s, i), q) == PlainStep(Sizes(s, q), LinkStep(i, s.table.heap[i].ptr, s.table.heap[i].size), q)
  {
    var v := Link(s, i);
    assert ChainOk(s, Hash(q)) && ChainOk(v, Hash(q));
    var l := ChainFor(s, q);
    hide FreeOk, ChainsOk, ChargesOk, CountersOk, Distinct;
    SizesSame(s.table.heap, v.table.heap, l, q);
    if Hash(q) == Hash(s.table.heap[i].ptr) {
      assert ChainFor(v, q) == [i] + l;
      SizesPush(v.table.heap, i, l, q);
    }
  }

  lemma SizesPush(heap: seq<Entry>, i: nat, l: seq<nat>, q: nat)
    requires i < |heap|
    ensures SizesIn(heap, [i] + l, q) == if heap[i].ptr == q then [heap[i].size] + SizesIn(heap, l, q) else SizesIn(heap, l, q)
  {
    assert ([i] + l)[1..] == l;
  }

  lemma ChainInRange(s: State, q: nat)
    requires Good(s)
    ensures forall k :: 0 <= k < |ChainFor(s, q)| ==> ChainFor(s, q)[k] < |s.table.heap|
  {
    assert ChainOk(s, Hash(q));
  }

  /** After an unlinking each chain has the same entries, or one less. */
  lemma ChainAfterUnlink(s: State, ptr: nat, q: nat)
    requires Good(s) && Has(s, ptr)
    requires forall k :: 0 <= k < |ChainFor(s, q)| ==> ChainFor(s, q)[k] < |s.table.heap|
    ensures Hash(q) == Hash(ptr) ==> Find(s.table.heap, ChainFor(s, q), ptr) < |ChainFor(s, q)|
    ensures |Unlink(s, ptr).layout.chains| == HASH_SIZE
    ensures ChainFor(Unlink(s, ptr), q) ==
      if Hash(q) == Hash(ptr) then Cut(ChainFor(s, q), Find(s.table.heap, ChainFor(s, q), ptr)) else ChainFor(s, q)
  {
    hide FreeOk, ChargesOk, CountersOk, Distinct, Lists, Linked, Cut, Find, ChainsOk, Hash;
  }

  lemma UnlinkPops(s: State, ptr: nat, q: nat)
    requires Good(s) && Has(s, ptr) && Good(Unlink(s, ptr))
    ensures Sizes(Unlink(s, ptr), q) == PlainStep(Sizes(s, q), UnlinkStep(ptr), q)
  {
    hide FreeOk, ChainsOk, ChargesOk, CountersOk, Cut, Find, Has, Unlink, Hash;
    ChainInRange(s, q);
    ChainAfterUnlink(s, ptr, q);
    var w := UnlinkWrites(s, ptr);
    var l, v := ChainFor(s, q), Unlink(s, ptr);
    SizesSame(s.table.heap, v.table.heap, ChainFor(v, q), q);
    if Hash(q) == Hash(ptr) {
      CutChain(s.table.heap, l, ptr, q);
    }
  }

  lemma CutChain(heap: seq<Entry>, l: seq<nat>, ptr: nat, q: nat)
    requires forall k :: 0 <= k < |l| ==> l[k] < |heap|
    requires Find(heap, l, ptr) < |l|
    ensures SizesIn(heap, Cut(l, Find(heap, l, ptr)), q) ==
      if q == ptr && SizesIn(heap, l, q) != [] then SizesIn(heap, l, q)[1..] else SizesIn(heap, l, q)
  {
    if q == ptr {
      FindIsTop(heap, l, ptr);
    } else {
      SizesCut(heap, l, Find(heap, l, ptr), q);
    }
  }

  lemma StepRefines(s: State, step: Step, q: nat)
    requires Good(s) && Enabled(s, step)
    ensures Sizes(Apply(s, step), q) == PlainStep(Sizes(s, q), step, q)
  {
    hide Sizes;
    var v := Apply(s, step);
    match step
    case TakeStep(size) => TakeKeepsFree(s, size); HeldSteps(s, v, s.table.freeList, q);
    case FillStep(i, ptr) => HeldSteps(s, v, i, q);
    case LinkStep(i, _, _) => LinkPushes(s, i, q);
    case UnlinkStep(ptr) => UnlinkPops(s, ptr, q);
    case ReleaseStep(i) => HeldSteps(s, v, i, q);
  }

  /**
   * With any number of threads inside add and del at once, a lookup finds what a stack of sizes per
   * pointer would hold if each add took effect at its second lock and each del at its first.
   */
  lemma {:induction false} RunRefines(s: State, run: seq<Step>, q: nat)
    requires Good(s) && Possible(s, run)
    ensures Sizes(After(s, run), q) == PlainRun(Sizes(s, q), run, q)
    decreases |run|
  {
    hide Sizes, Good;
    if run != [] {
      StepRefines(s, run[0], q);
      RunRefines(Apply(s, run[0]), run[1..], q);
    }
  }

  // ----- at rest the table is a map, and the counters are its size and sum -----

  /** z_mem_trace_init_internal. */
  ghost function Initial(): State {
    State(Table(seq(HEAP_SIZE, (i: nat) => Entry(if i + 1 < HEAP_SIZE then i + 1 else EOL, 0, 0)),
                seq(HASH_SIZE, _ => EOL), 0, 0, 0),
          Layout(seq(HEAP_SIZE, (i: nat) => i), seq(HASH_SIZE, _ => []), seq(HEAP_SIZE, _ => Free), seq(HEAP_SIZE, _ => 0)))
  }

  lemma {:induction false} SumZeros(c: seq<int>)
    requires forall i :: 0 <= i < |c| ==> c[i] == 0
    ensures Sum(c) == 0
  {
    if c != [] {
      SumZeros(c[..|c| - 1]);
    }
  }

  lemma InitialGood()
    ensures Good(Initial())
    ensures |Initial().table.heap| == |Initial().layout.free| == 300000 && |Initial().table.heads| == 32768
  {
    var s := Initial();
    SumZeros(s.layout.charged);
    forall i | 0 <= i < HEAP_SIZE
      ensures i in s.layout.free
    {
      assert s.layout.free[i] == i;
    }
    forall h | 0 <= h < HASH_SIZE
      ensures ChainOk(s, h)
    {
    }
  }

  /** No thread is between its two locks. */
  ghost predicate AtRest(s: State) {
    forall i :: 0 <= i < |s.layout.place| ==> s.layout.place[i].Free? || s.layout.place[i].Bucket?
  }

  /** No pointer is traced twice, as no allocator hands out a block that is in use. */
  ghost predicate NoDuplicates(heap: seq<Entry>, place: seq<Place>)
    requires |heap| == |place|
  {
    forall i, j :: 0 <= i < j < |heap| && place[i].Bucket? && place[j].Bucket? ==> heap[i].ptr != heap[j].ptr
  }

  /** The traced pointers among the first `n` entries, with their sizes. */
  function Live(heap: seq<Entry>, place: seq<Place>, n: nat): map<nat, int>
    requires n <= |heap| == |place|
  {
    if n == 0 then map[]
    else
      var fewer := Live(heap, place, n - 1);
      if place[n - 1].Bucket? then fewer[heap[n - 1].ptr := heap[n - 1].size] else fewer
  }

  ghost function Pick(m: map<nat, int>): (k: nat)
    requires m != map[]
    ensures k in m
  {
    var k :| k in m;
    k
  }

  ghost function MapSum(m: map<nat, int>): int {
    if m == map[] then 0 else m[Pick(m)] + MapSum(m - {Pick(m)})
  }

  lemma {:induction false} MapSumAdd(m: map<nat, int>, k: nat, v: int)
    requires k !in m
    ensures MapSum(m[k := v]) == MapSum(m) + v
    decreases |m|
  {
    var big := m[k := v];
    assert k in big;
    var j := Pick(big);
    if j == k {
      assert big - {j} == m;
    } else {
      assert big - {j} == (m - {j})[k := v];
      assert (m - {j}).Keys == m.Keys - {j};
      MapSumAdd(m - {j}, k, v);
      MapSumRemove(m, j);
    }
  }

  lemma {:induction false} MapSumRemove(m: map<nat, int>, k: nat)
    requires k in m
    ensures MapSum(m) == m[k] + MapSum(m - {k})
    decreases |m|, 0
  {
    assert m == (m - {k})[k := m[k]];
    assert (m - {k}).Keys == m.Keys - {k};
    MapSumAdd(m - {k}, k, m[k]);
  }

  function Count(place: seq<Place>, n: nat): nat
    requires n <= |place|
  {
    if n == 0 then 0 else Count(place, n - 1) + if place[n - 1].Free? then 1 else 0
  }

  lemma {:induction false} FreeCount(place: seq<Place>, l: seq<nat>, n: nat)
    requires n <= |place| && Distinct(l)
    requires forall i :: i in l ==> i < n && place[i].Free?
    requires forall i :: 0 <= i < n && place[i].Free? ==> i in l
    ensures |l| == Count(place, n)
  {
    assert l != [] ==> l[0] in l;
    if n == 0 {
    } else if place[n - 1].Free? {
      var k :| 0 <= k < |l| && l[k] == n - 1;
      DistinctCut(l, k);
      FreeCount(place, Cut(l, k), n - 1);
    } else {
      FreeCount(place, l, n - 1);
    }
  }

  lemma {:induction false} LiveDomain(heap: seq<Entry>, place: seq<Place>, n: nat)
    requires n <= |heap| == |place| && NoDuplicates(heap, place)
    ensures forall p :: p in Live(heap, place, n) ==> exists i :: 0 <= i < n && place[i].Bucket? && heap[i].ptr == p
    ensures forall i :: 0 <= i < n && place[i].Bucket? ==>
      heap[i].ptr in Live(heap, place, n) && Live(heap, place, n)[heap[i].ptr] == heap[i].size
  {
    if n > 0 {
      LiveDomain(heap, place, n - 1);
    }
  }

  lemma {:induction false} LiveTotals(heap: seq<Entry>, place: seq<Place>, charged: seq<int>, n: nat)
    requires n <= |heap| == |place| == |charged| && NoDuplicates(heap, place)
    requires forall i :: 0 <= i < |place| ==> place[i].Free? || place[i].Bucket?
    requires forall i :: 0 <= i < |place| ==> charged[i] == if place[i].Free? then 0 else heap[i].size
    ensures |Live(heap, place, n)| + Count(place, n) == n
    ensures MapSum(Live(heap, place, n)) == Sum(charged[..n])
  {
    if n > 0 {
      LiveTotals(heap, place, charged, n - 1);
      assert charged[..n][..n - 1] == charged[..n - 1];
      if place[n - 1].Bucket? {
        LiveDomain(heap, place, n - 1);
        MapSumAdd(Live(heap, place, n - 1), heap[n - 1].ptr, heap[n - 1].size);
      }
    }
  }

  /** What the tracer stands for at rest. */
  function Traced(s: State): map<nat, int>
    requires |s.table.heap| == |s.layout.place|
  {
    Live(s.table.heap, s.layout.place, |s.table.heap|)
  }

  /**
   * At rest, with no pointer traced twice, the tracer is a map from pointers to sizes: the block count
   * is its cardinality, the allocated size is its sum modulo 2^32, and lookups answer from it.
   */
  lemma CountersAtRest(s: State)
    requires Good(s) && AtRest(s) && NoDuplicates(s.table.heap, s.layout.place)
    ensures s.table.blockCount == |Traced(s)|
    ensures s.table.allocatedSize == MapSum(Traced(s)) % 0x1_0000_0000
  {
    hide ChainsOk, NoDuplicates, Sum, MapSum, Live, Distinct, Linked;
    LiveTotals(s.table.heap, s.layout.place, s.layout.charged, |s.table.heap|);
    FreeCount(s.layout.place, s.layout.free, |s.table.heap|);
    assert s.layout.charged[..|s.table.heap|] == s.layout.charged;
  }

  lemma LookupsAtRest(s: State, p: nat)
    requires Good(s) && AtRest(s) && NoDuplicates(s.table.heap, s.layout.place)
    ensures Sizes(s, p) == if p in Traced(s) then [Traced(s)[p]] else []
  {
    var l := ChainFor(s, p);
    LiveDomain(s.table.heap, s.layout.place, |s.table.heap|);
    assert ChainOk(s, Hash(p));
    hide FreeOk, ChargesOk, CountersOk, Live, Linked;
    if p in Traced(s) {
      var i :| 0 <= i < |s.table.heap| && s.layout.place[i].Bucket? && s.table.heap[i].ptr == p;
      OnlyEntry(s, i);
    } else {
      forall k | 0 <= k < |l|
        ensures l[k] < |s.table.heap| && s.table.heap[l[k]].ptr != p
      {
        assert l[k] in l;
      }
      SizesNone(s.table.heap, l, p);
    }
  }

  lemma OnlyOneMatches(heap: seq<Entry>, l: seq<nat>, k: nat, p: nat)
    requires k < |l| && forall j :: 0 <= j < |l| ==> l[j] < |heap| && (heap[l[j]].ptr == p <==> j == k)
    ensures SizesIn(heap, l, p) == [heap[l[k]].size]
  {
    SizesCut(heap, l, k, p);
    SizesNone(heap, l[..k], p);
    SizesNone(heap, l[k + 1..], p);
  }

  lemma OnlyEntry(s: State, i: nat)
    requires Good(s) && NoDuplicates(s.table.heap, s.layout.place)
    requires i < |s.table.heap| && s.layout.place[i].Bucket?
    ensures Sizes(s, s.table.heap[i].ptr) == [s.table.heap[i].size]
  {
    ChainFacts(s, i);
    var heap, place, p, l := s.table.heap, s.layout.place, s.table.heap[i].ptr, ChainFor(s, s.table.heap[i].ptr);
    hide Good, SizesIn, ChainFor;
    var k :| 0 <= k < |l| && l[k] == i;
    forall j | 0 <= j < |l|
      ensures l[j] < |heap| && (heap[l[j]].ptr == p <==> j == k)
    {
      assert l[j] in l;
      assert j != k ==> l[j] != i;
    }
    OnlyOneMatches(heap, l, k, p);
  }

  lemma ChainFacts(s: State, i: nat)
    requires Good(s) && i < |s.table.heap| && s.layout.place[i].Bucket?
    ensures var l := ChainFor(s, s.table.heap[i].ptr);
      i in l && Distinct(l) && forall j :: j in l ==> j < |s.table.heap| && s.layout.place[j].Bucket?
  {
    assert ChainOk(s, s.layout.place[i].h);
    hide FreeOk, ChainsOk, CountersOk, Linked, Distinct, Hash;
  }

  // ----- no pointer is traced twice if none is when it is linked -----

  /** At most one size is traced for any pointer. */
  ghost predicate OneSizeEach(s: State)
    requires |s.layout.chains| == HASH_SIZE
  {
    forall q :: |Sizes(s, q)| <= 1
  }

  /** A block is linked only while nothing is traced for its pointer, as its owner has not freed it yet. */
  ghost predicate Fresh(s: State, run: seq<Step>)
    requires Good(s) && Possible(s, run)
    decreases |run|
  {
    run != [] ==>
      && (run[0].LinkStep? ==> Sizes(s, run[0].ptr) == [])
      && Fresh(Apply(s, run[0]), run[1..])
  }

  lemma StepKeepsOneSize(s: State, step: Step)
    requires Good(s) && Enabled(s, step) && OneSizeEach(s)
    requires step.LinkStep? ==> Sizes(s, step.ptr) == []
    ensures OneSizeEach(Apply(s, step))
  {
    hide FreeOk, ChainsOk, ChargesOk, CountersOk, Sizes, Apply;
    forall q
      ensures |Sizes(Apply(s, step), q)| <= 1
    {
      StepRefines(s, step, q);
    }
  }

  lemma {:induction false} RunKeepsOneSize(s: State, run: seq<Step>)
    requires Good(s) && Possible(s, run) && Fresh(s, run) && OneSizeEach(s)
    ensures OneSizeEach(After(s, run))
    decreases |run|
  {
    hide Good, Sizes, Apply, OneSizeEach;
    if run != [] {
      StepKeepsOneSize(s, run[0]);
      RunKeepsOneSize(Apply(s, run[0]), run[1..]);
    }
  }

  lemma TwoMatch(heap: seq<Entry>, l: seq<nat>, a: nat, b: nat, p: nat)
    requires a < b < |l| && l[a] < |heap| && l[b] < |heap| && heap[l[a]].ptr == heap[l[b]].ptr == p
    ensures |SizesIn(heap, l, p)| >= 2
  {
    hide SizesIn;
    SizesCut(heap, l, b, p);
    SizesCut(heap, l[..b], a, p);
  }

  /** One size for each pointer means one entry for each. */
  lemma OneSizeIsOneEntry(s: State)
    requires Good(s) && OneSizeEach(s)
    ensures NoDuplicates(s.table.heap, s.layout.place)
  {
    hide FreeOk, ChargesOk, CountersOk, Linked, SizesIn;
    var heap, place := s.table.heap, s.layout.place;
    forall i, j | 0 <= i < j < |heap| && place[i].Bucket? && place[j].Bucket?
      ensures heap[i].ptr != heap[j].ptr
    {
      assert |Sizes(s, heap[i].ptr)| <= 1;
      if heap[i].ptr == heap[j].ptr {
        SameBucket(s, i, j);
        var l := ChainFor(s, heap[i].ptr);
        var a :| 0 <= a < |l| && l[a] == i;
        var b :| 0 <= b < |l| && l[b] == j;
        TwoMatch(heap, l, if a < b then a else b, if a < b then b else a, heap[i].ptr);
      }
    }
  }

  lemma SameBucket(s: State, i: nat, j: nat)
    requires Good(s) && i < |s.table.heap| && j < |s.table.heap| && s.table.heap[i].ptr == s.table.heap[j].ptr
    requires s.layout.place[i].Bucket? && s.layout.place[j].Bucket?
    ensures i in ChainFor(s, s.table.heap[i].ptr) && j in ChainFor(s, s.table.heap[i].ptr)
  {
    OnePlaceEach(s, i);
    OnePlaceEach(s, j);
    hide FreeOk, ChainsOk, CountersOk, Hash;
  }

  lemma NothingTraced(q: nat)
    ensures Sizes(Initial(), q) == []
  {
  }

  /**
   * After any run from the start in which blocks are linked only while nothing is traced for their
   * pointers, whenever all calls have returned: the tracer is a map from pointers to sizes.  It holds what
   * the adds and dels of each pointer leave, the block count is its cardinality, and the allocated size
   * is its sum modulo 2^32.
   */
  lemma TracerIsAMap(run: seq<Step>)
    requires Good(Initial()) && Possible(Initial(), run) && Fresh(Initial(), run) && AtRest(After(Initial(), run))
    ensures var s := After(Initial(), run);
      && s.table.blockCount == |Traced(s)|
      && s.table.allocatedSize == MapSum(Traced(s)) % 0x1_0000_0000
      && forall p :: PlainRun([], run, p) == if p in Traced(s) then [Traced(s)[p]] else []
  {
    var s := After(Initial(), run);
    assert OneSizeEach(Initial()) by {
      forall q
        ensures |Sizes(Initial(), q)| <= 1
      {
        NothingTraced(q);
      }
    }
    hide Good, Sizes, OneSizeEach, Possible, After, Fresh, AtRest, NoDuplicates, Traced, MapSum, Initial;
    RunKeepsOneSize(Initial(), run);
    OneSizeIsOneEntry(s);
    CountersAtRest(s);
    forall p
      ensures PlainRun([], run, p) == if p in Traced(s) then [Traced(s)[p]] else []
    {
      LookupsAtRest(s, p);
      NothingTraced(p);
      RunRefines(Initial(), run, p);
    }
  }
}
