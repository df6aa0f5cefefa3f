/** The tracer of src/memtrace.c on its arrays: each method is one critical section, or a sequence of them. */
module TracerHeap {
  import opened MemTrace

  class Tracer {
    const heap: array<Entry>
    const heads: array<nat>
    var freeList: nat
    var blockCount: nat
    var allocatedSize: nat
    ghost var layout: Layout

    ghost function State(): State
      reads this, heap, heads
    {
      MemTrace.State(Table(heap[..], heads[..], freeList, blockCount, allocatedSize), layout)
    }

    ghost predicate Valid()
      reads this, heap, heads
    {
      Good(State())
    }

    /** z_mem_trace_init_internal. */
    constructor ()
      ensures Valid() && State() == Initial() && fresh(heap) && fresh(heads)
      ensures heap.Length == 300000 && blockCount == 0
    {
      heap := new Entry[HEAP_SIZE](_ => Entry(0, 0, 0));
      heads := new nat[HASH_SIZE](_ => 0);
      freeList, blockCount, allocatedSize := 0, 0, 0;
      layout := Initial().layout;
      new;
      hide Good;
      InitLists();
      InitialGood();
    }

    method InitLists()
      requires heap.Length == HEAP_SIZE && forall j :: 0 <= j < HEAP_SIZE ==> heap[j] == Entry(0, 0, 0)
      requires heads.Length == HASH_SIZE && freeList == blockCount == allocatedSize == 0 && layout == Initial().layout
      modifies heap, heads
      ensures State() == Initial()
    {
      InitLinks();
      InitHeads();
      assert State().table == Initial().table;
    }

    method InitLinks()
      requires heap.Length == HEAP_SIZE && forall j :: 0 <= j < HEAP_SIZE ==> heap[j] == Entry(0, 0, 0)
      modifies heap
      ensures heap[..] == Initial().table.heap
    {
      for i := 0 to heap.Length
        invariant forall j :: 0 <= j < i ==> heap[j] == Entry(j + 1, 0, 0)
        invariant forall j :: i <= j < heap.Length ==> heap[j] == Entry(0, 0, 0)
      {
        heap[i] := heap[i].(next := i + 1);
      }
      heap[HEAP_SIZE - 1] := heap[HEAP_SIZE - 1].(next := EOL);
    }

    method InitHeads()
      requires heads.Length == HASH_SIZE
      modifies heads
      ensures heads[..] == Initial().table.heads
    {
      for i := 0 to heads.Length
        invariant forall j :: 0 <= j < i ==> heads[j] == EOL
      {
        heads[i] := EOL;
      }
    }

    /** z_mem_trace_add under mem_trace_lock. */
    method Take(size: int) returns (ok: bool, ndx: nat)
      requires Valid()
      modifies this
      ensures ok == (old(freeList) != EOL)
      ensures ok ==> ndx == old(freeList) && State() == MemTrace.Take(old(State()), size)
      ensures !ok ==> State() == old(State())
      ensures Valid() && (ok ==> ndx < heap.Length && layout.place[ndx] == Blank && layout.charged[ndx] == size)
    {
      hide FreeOk, ChainsOk, ChargesOk, CountersOk;
      if freeList == EOL {
        return false, 0;
      }
      TakeFacts(State(), size);
      ghost var after := MemTrace.Take(State(), size);
      blockCount := (blockCount + 1) % WORD;
      allocatedSize := (allocatedSize + size) % WORD;
      ok, ndx := true, freeList;
      freeList := heap[freeList].next;
      layout := after.layout;
      assert State() == after;
    }

    /** The unlocked stores of z_mem_trace_add to the entry it holds. */
    method Fill(ndx: nat, ptr: nat, size: int)
      requires Valid() && ndx < heap.Length && layout.place[ndx] == Blank && layout.charged[ndx] == size
      modifies this`layout, heap
      ensures State() == MemTrace.Fill(old(State()), ndx, ptr)
      ensures Valid() && heap[ndx].ptr == ptr && heap[ndx].size == size
    {
      FillKeeps(State(), ndx, ptr);
      ghost var after := MemTrace.Fill(State(), ndx, ptr);
      hide Good;
      heap[ndx] := heap[ndx].(ptr := ptr);
      heap[ndx] := heap[ndx].(size := size);
      layout := after.layout;
      assert heap[..] == after.table.heap;
    }

    /** z_mem_trace_add under the chain's lock. */
    method Link(ndx: nat, hash: nat)
      requires Valid() && ndx < heap.Length && layout.place[ndx] == Filled && hash == Hash(heap[ndx].ptr)
      modifies this`layout, heap, heads
      ensures Valid() && State() == MemTrace.Link(old(State()), ndx)
    {
      LinkKeeps(State(), ndx);
      ghost var after := MemTrace.Link(State(), ndx);
      hide Good;
      heap[ndx] := heap[ndx].(next := heads[hash]);
      heads[hash] := ndx;
      layout := after.layout;
      assert heap[..] == after.table.heap && heads[..] == after.table.heads;
    }

    /** z_mem_trace_add run alone: it pushes a size for the pointer, or fails because the table is full. */
    method Add(ptr: nat, size: int) returns (ok: bool)
      requires Valid()
      modifies this, heap, heads
      ensures Valid() && ok == (old(blockCount) < heap.Length)
      ensures forall q :: Sizes(State(), q) == if ok && q == ptr then [size] + old(Sizes(State(), q)) else old(Sizes(State(), q))
    {
      ghost var s0 := State();
      FullWhenAllAreCounted(s0);
      var ndx;
      ok, ndx := Take(size);
      if ok {
        ghost var s1 := State();
        Fill(ndx, ptr, size);
        ghost var s2 := State();
        Link(ndx, Hash(ptr));
        forall q
          ensures Sizes(State(), q) == if q == ptr then [size] + Sizes(s0, q) else Sizes(s0, q)
        {
          AddPushes(s0, size, ndx, ptr, q);
        }
      }
    }

    /** z_mem_trace_lookup_chain: the index of the first entry for the pointer. */
    method Lookup(ptr: nat) returns (cur: nat)
      requires Valid()
      ensures cur == EOL <==> !Has(State(), ptr)
      ensures cur != EOL ==> cur == EntryOf(State(), ptr) && cur < heap.Length
    {
      var prev;
      prev, cur := Search(ptr);
    }

    /** z_mem_trace_getsize. */
    method GetSize(ptr: nat) returns (size: int)
      requires Valid()
      ensures size == if Sizes(State(), ptr) != [] then Sizes(State(), ptr)[0] else -1
    {
      var cur := Lookup(ptr);
      HasIsNonempty(State(), ptr);
      size := if cur != EOL then heap[cur].size else -1;
    }

    /** z_mem_trace_del under the chain's lock: `prev` is where the pointer to the current entry is kept. */
    method Unlink(ptr: nat) returns (found: bool, cur: nat)
      requires Valid()
      modifies this`layout, heap, heads
      ensures found == Has(old(State()), ptr)
      ensures found ==> cur == EntryOf(old(State()), ptr) && State() == MemTrace.Unlink(old(State()), ptr)
      ensures !found ==> State() == old(State())
      ensures Valid() && (found ==> cur < heap.Length && layout.place[cur] == Filled)
    {
      var prev;
      prev, cur := Search(ptr);
      hide FreeOk, ChainsOk, ChargesOk, CountersOk, Has;
      found := cur != EOL;
      if found {
        UnlinkFacts(State(), ptr);
        ghost var after := MemTrace.Unlink(State(), ptr);
        if prev == EOL {
          heads[Hash(ptr)] := heap[cur].next;
        } else {
          heap[prev] := heap[prev].(next := heap[cur].next);
        }
        layout := after.layout;
        assert heap[..] == after.table.heap && heads[..] == after.table.heads;
      }
    }

    /** The entry for the pointer and the one before it. */
    method Search(ptr: nat) returns (prev: nat, cur: nat)
      requires Valid()
      ensures cur == EOL <==> !Has(State(), ptr)
      ensures cur != EOL ==> cur == EntryOf(State(), ptr) && prev == Previous(State(), ptr)
    {
      ChainLinked(State(), ptr);
      hide Good, Has;
      prev, cur := WalkChain(heads[Hash(ptr)], ptr, ChainFor(State(), ptr));
      FoundAt(State(), ChainFor(State(), ptr), ptr, Find(State().table.heap, ChainFor(State(), ptr), ptr));
    }

    /** The walk along `l` has passed `k` entries, none of them for `ptr`. */
    static ghost predicate Walked(h: seq<Entry>, head: nat, l: seq<nat>, ptr: nat, k: nat, prev: nat, cur: nat) {
      && |h| < EOL && Linked(h, head, l) && k <= |l|
      && (forall j :: 0 <= j < k && l[j] < |h| ==> h[l[j]].ptr != ptr)
      && cur == (if k < |l| then l[k] else EOL) && prev == (if k > 0 then l[k - 1] else EOL)
    }

    static lemma WalkOn(h: seq<Entry>, head: nat, l: seq<nat>, ptr: nat, k: nat, prev: nat, cur: nat)
      requires Walked(h, head, l, ptr, k, prev, cur) && cur != EOL
      ensures k < |l| && cur < |h|
      ensures h[cur].ptr != ptr ==>
        && Walked(h, head, l, ptr, k + 1, cur, h[cur].next)
        && (h[cur].next == EOL || h[cur].next < |h|)
    {
    }

    static lemma WalkEnds(h: seq<Entry>, head: nat, l: seq<nat>, ptr: nat, k: nat, prev: nat, cur: nat)
      requires Walked(h, head, l, ptr, k, prev, cur) && (cur == EOL || (cur < |h| && h[cur].ptr == ptr))
      ensures forall j :: 0 <= j < |l| ==> l[j] < |h|
      ensures var k := Find(h, l, ptr);
        cur == (if k < |l| then l[k] else EOL) && prev == (if k > 0 then l[k - 1] else EOL)
    {
      FindUnique(h, l, ptr, k);
    }

    /** The loop of z_mem_trace_lookup_chain and z_mem_trace_del, over any list. */
    method WalkChain(head: nat, ptr: nat, ghost l: seq<nat>) returns (prev: nat, cur: nat)
      requires heap.Length < EOL && Linked(heap[..], head, l)
      ensures forall j :: 0 <= j < |l| ==> l[j] < heap.Length
      ensures var k := Find(heap[..], l, ptr);
        cur == (if k < |l| then l[k] else EOL) && prev == (if k > 0 then l[k - 1] else EOL)
    {
      ghost var h := heap[..];
      ghost var k: nat := 0;
      prev := EOL;
      cur := head;
      assert Walked(h, head, l, ptr, k, prev, cur);
      hide *;
      while cur != EOL && heap[cur].ptr != ptr
        invariant Walked(h, head, l, ptr, k, prev, cur) && (cur == EOL || cur < heap.Length)
        decreases |l| - k
      {
        hide *;
        WalkOn(h, head, l, ptr, k, prev, cur);
        prev := cur;
        cur := heap[cur].next;
        k := k + 1;
      }
      WalkEnds(h, head, l, ptr, k, prev, cur);
    }

    /** z_mem_trace_del under mem_trace_lock. */
    method Release(cur: nat)
      requires Valid() && cur < heap.Length && layout.place[cur] == Filled
      modifies this, heap
      ensures Valid() && State() == MemTrace.Release(old(State()), cur)
    {
      hide FreeOk, ChainsOk, ChargesOk, CountersOk;
      ReleaseKeeps(State(), cur);
      ghost var after := MemTrace.Release(State(), cur);
      heap[cur] := heap[cur].(next := freeList);
      freeList := cur;
      blockCount := (blockCount - 1) % WORD;
      allocatedSize := (allocatedSize - heap[cur].size) % WORD;
      layout := after.layout;
      assert heap[..] == after.table.heap;
    }

    /** z_mem_trace_del run alone: it pops the size last added for the pointer, or reports that there is none. */
    method Del(ptr: nat) returns (ok: bool)
      requires Valid()
      modifies this, heap, heads
      ensures Valid() && ok == (old(Sizes(State(), ptr)) != [])
      ensures forall q :: Sizes(State(), q) == if ok && q == ptr then old(Sizes(State(), q))[1..] else old(Sizes(State(), q))
    {
      hide FreeOk, ChainsOk, ChargesOk, CountersOk, Sizes, MemTrace.Unlink, Has, EntryOf;
      ghost var s0 := State();
      HasIsNonempty(s0, ptr);
      var cur;
      ok, cur := Unlink(ptr);
      if ok {
        ghost var s1 := State();
        Release(cur);
        forall q
          ensures Sizes(State(), q) == if q == ptr then Sizes(s0, q)[1..] else Sizes(s0, q)
        {
          UnlinkPops(s0, ptr, q);
          ReleaseQuiet(s1, cur, q);
        }
      }
    }
  }

  lemma {:induction false} FindUnique(heap: seq<Entry>, l: seq<nat>, ptr: nat, k: nat)
    requires forall j :: 0 <= j < |l| ==> l[j] < |heap|
    requires k <= |l| && (k < |l| ==> heap[l[k]].ptr == ptr)
    requires forall j :: 0 <= j < k ==> heap[l[j]].ptr != ptr
    ensures Find(heap, l, ptr) == k
  {
    if k > 0 {
      FindUnique(heap, l[1..], ptr, k - 1);
    }
  }

  lemma ChainLinked(s: State, ptr: nat)
    requires Good(s)
    ensures |s.table.heap| < EOL && |s.table.heads| == HASH_SIZE
    ensures Linked(s.table.heap, s.table.heads[Hash(ptr)], ChainFor(s, ptr))
  {
    assert ChainOk(s, Hash(ptr));
  }

  /** The search has stopped at position `k` of the chain. */
  lemma FoundAt(s: State, l: seq<nat>, ptr: nat, k: nat)
    requires Good(s) && l == ChainFor(s, ptr) && k <= |l| && forall j :: 0 <= j < |l| ==> l[j] < |s.table.heap|
    requires forall j :: 0 <= j < k ==> s.table.heap[l[j]].ptr != ptr
    requires k < |l| ==> s.table.heap[l[k]].ptr == ptr
    ensures Has(s, ptr) <==> k < |l|
    ensures k < |l| ==> EntryOf(s, ptr) == l[k] && Previous(s, ptr) == if k == 0 then EOL else l[k - 1]
  {
    FindUnique(s.table.heap, l, ptr, k);
    hide FreeOk, ChainsOk, ChargesOk, CountersOk, Find;
  }

  lemma TakeFacts(s: State, size: int)
    requires Good(s) && s.table.freeList != EOL
    ensures Good(Take(s, size)) && s.table.freeList < |s.table.heap| == |s.layout.place| == |s.layout.charged|
  {
    TakeKeeps(s, size);
    TakeKeepsFree(s, size);
  }

  /** The entry before the one that answers for a pointer, if there is one. */
  ghost function Previous(s: State, ptr: nat): (prev: nat)
    requires Good(s) && Has(s, ptr)
    ensures prev == EOL || prev < |s.table.heap|
  {
    ChainInRange(s, ptr);
    var k := Find(s.table.heap, ChainFor(s, ptr), ptr);
    if k == 0 then EOL else ChainFor(s, ptr)[k - 1]
  }

  /** What unlinking writes, spelled out. */
  lemma UnlinkFacts(s: State, ptr: nat)
    requires Good(s) && Has(s, ptr)
    ensures Good(Unlink(s, ptr))
    ensures var prev, next := Previous(s, ptr), s.table.heap[EntryOf(s, ptr)].next;
      Unlink(s, ptr).table ==
        if prev == EOL then s.table.(heads := s.table.heads[Hash(ptr) := next])
        else s.table.(heap := s.table.heap[prev := s.table.heap[prev].(next := next)])
    ensures EntryOf(s, ptr) < |Unlink(s, ptr).layout.place| && Unlink(s, ptr).layout.place[EntryOf(s, ptr)] == Filled
  {
    UnlinkKeeps(s, ptr);
    ChainInRange(s, ptr);
    hide FreeOk, ChainsOk, ChargesOk, CountersOk;
  }

  lemma AddPushes(s: State, size: int, i: nat, ptr: nat, q: nat)
    requires Good(s) && s.table.freeList != EOL && i == s.table.freeList < |s.table.heap|
    ensures var v := Link(Fill(Take(s, size), i, ptr), i);
      |v.layout.chains| == HASH_SIZE && Sizes(v, q) == if q == ptr then [size] + Sizes(s, q) else Sizes(s, q)
  {
    TakeKeepsFree(s, size);
    var s1 := Apply(s, TakeStep(size));
    var s2 := Apply(s1, FillStep(i, ptr));
    hide Sizes, Good;
    StepRefines(s, TakeStep(size), q);
    StepRefines(s1, FillStep(i, ptr), q);
    StepRefines(s2, LinkStep(i, ptr, size), q);
  }

  lemma ReleaseQuiet(s: State, i: nat, q: nat)
    requires Good(s) && i < |s.table.heap| && s.layout.place[i] == Filled
    ensures |Release(s, i).layout.chains| == HASH_SIZE && Sizes(Release(s, i), q) == Sizes(s, q)
  {
    hide Sizes, FreeOk, ChainsOk, ChargesOk, CountersOk;
    StepRefines(s, ReleaseStep(i), q);
  }
}
