/** What changes of the level in LogCaches come to, and what calls leave behind for later ones. */
module LogLevels {
  import opened LogCaches
  import opened LogSpec

  /**
   * z_log_change_verbose_level asks for the level lowered by the amount, for the amount itself, or for the
   * level raised by it.  What is in range is published at once; what is not can be seen until it is corrected.
   */
  lemma LevelIsSet(w: World, k: nat, direction: int, amount: int, asked: int)
    requires Inv(w) && Enabled(w, SetLevel(k, direction, amount))
    requires direction < 0 ==> asked == Now(w).level - amount
    requires direction == 0 ==> asked == amount
    requires direction > 0 ==> asked == Now(w).level + amount
    ensures var v := Apply(w, SetLevel(k, direction, amount));
      && v.history != [] && Now(v).items == Now(w).items
      && (if 0 <= asked <= 10
          then v.lock.Free? && v.live == Now(v) && Now(v).level == asked
          else v.lock == Adjusting(k) && v.live.level == asked && Enabled(v, Settle(k)))
  {
    hide AllCacheable, CachesOk, ArrayOk, ReadersOk;
  }

  lemma SettledIsNearest(w: World, k: nat)
    requires Enabled(w, Settle(k))
    ensures var v := Apply(w, Settle(k));
      v.history != [] && v.lock.Free? && v.live == Now(v) && Nearest(Now(v).level, w.live.level)
  {
    ClampIsNearest(w.live.level);
    hide Clamp, Nearest;
  }

  lemma NobodyElseSettles(w: World, step: Step)
    requires Enabled(w, step) && w.lock.Adjusting? && !step.Settle?
    ensures Apply(w, step).lock == w.lock && Apply(w, step).live == w.live
  {
    if Changes(step) {
      hide AllSlots, AllCacheable;
    } else {
      OthersLeaveSpec(w, step);
    }
  }

  /** A level out of range ends as the nearest one that is in range, whatever others do in between. */
  lemma {:induction false} LevelEndsNearest(w: World, k: nat, between: seq<Step>)
    requires w.lock == Adjusting(k) && Possible(w, between + [Settle(k)])
    requires forall i :: 0 <= i < |between| ==> !between[i].Settle?
    ensures var v := After(w, between + [Settle(k)]);
      v.history != [] && v.lock.Free? && v.live == Now(v) && Nearest(Now(v).level, w.live.level)
    decreases |between|
  {
    hide Enabled, Apply, Nearest;
    var all := between + [Settle(k)];
    if between == [] {
      assert all == [Settle(k)] && all[1..] == [];
      SettledIsNearest(w, k);
    } else {
      assert all[0] == between[0] && all[1..] == between[1..] + [Settle(k)];
      NobodyElseSettles(w, between[0]);
      LevelEndsNearest(Apply(w, between[0]), k, between[1..]);
    }
  }

  /** What a call has evaluated is in the table of its thread. */
  lemma InsertIsFound(w: World, c: nat)
    requires Enabled(w, Insert(c))
    ensures var v, tag := Apply(w, Insert(c)), w.readers[c].tag;
      && v.readers[c].Done? && tag in v.caches[c].table
      && v.readers[c].answer == Known(v.caches[c].table[tag])
  {
    hide AllCacheable, Eval, AllSlots;
  }

  /** What is in the table is the answer, and the spec is not evaluated. */
  lemma LookupFinds(w: World, c: nat)
    requires Enabled(w, Lookup(c))
    ensures var r, tag := Apply(w, Lookup(c)).readers[c], w.readers[c].tag;
      if tag in w.caches[c].table then r.Done? && r.answer == Known(w.caches[c].table[tag]) else r.Missing?
  {
    hide AllCacheable, Eval, AllSlots;
  }

  /** The same for a tag with a place in the array, where every level below 255 can be kept. */
  lemma FillIsFound(w: World, c: nat)
    requires Enabled(w, FillEntry(c))
    ensures var v := Apply(w, FillEntry(c)); var level := Eval(Now(w), w.readers[c].tag);
      && v.readers[c].Done? && Verbosity(v.readers[c].answer) == level
      && (0 <= level < 255 ==> v.entries[w.readers[c].index].byte == level + 1)
  {
    hide AllCacheable, Eval, AllSlots;
  }

  lemma ReadFinds(w: World, c: nat)
    requires Enabled(w, ReadEntry(c))
    ensures var r, byte := Apply(w, ReadEntry(c)).readers[c], w.entries[w.readers[c].index].byte;
      if byte != 0 then r.Done? && Verbosity(r.answer) == byte - 1 else r.EntryMissing?
  {
    hide AllCacheable, Eval, AllSlots;
  }

  /** Which way a call goes by what it sees of the items, and whether its tag has a place in the array. */
  lemma WayOfACall(w: World, c: nat, i: int)
    requires Enabled(w, SeeItems(c, i))
    ensures var r, tag := Apply(w, SeeItems(c, i)).readers[c], w.readers[c].tag;
      && (r.FastPath? <==> w.live.items == [])
      && (r.ArrayPath? <==> w.live.items != [] && tag in w.tags) && (r.ArrayPath? ==> w.tags[r.index] == tag)
      && (r.HashPath? <==> w.live.items != [] && tag !in w.tags)
  {
    hide AllCacheable, Eval, AllSlots;
  }

  /** A change of the level compares the level it saw before it took the lock with the one it sees after, whichever these are. */
  lemma LevelsCompared(w: World, k: nat)
    ensures Enabled(w, Note(k)) ==> Apply(w, Note(k)).changers[k] == Noted(w.live.level)
    ensures Enabled(w, Compare(k)) ==>
      var version, v := w.changers[k].version, Apply(w, Compare(k));
      && k !in v.changers
      && (version in v.pending <==> version in w.pending && (version == 0 || w.changers[k].before != w.live.level))
  {
    hide AllCacheable, Eval, AllSlots;
  }

  // ----- who can go on -----

  /** Who holds the lock of the spec can go on, so it is free again in the end. */
  lemma HolderGoesOn(w: World)
    requires Inv(w) && !w.lock.Free?
    ensures match w.lock
      case Wiping(_, items, level) => (!items ==> Enabled(w, CopyItems)) && (!level ==> Enabled(w, CopyLevel)) && !(items && level)
      case Adjusting(k) => Enabled(w, Settle(k))
      case Free => false
  {
    hide CachesOk, ArrayOk, ReadersOk, AllCacheable;
  }

  lemma TagIsMapped(tags: seq<string>, tag: string) returns (i: int)
    ensures if i < 0 then tag !in tags else i < |tags| && tags[i] == tag
  {
    if tag in tags {
      i :| 0 <= i < |tags| && tags[i] == tag;
    } else {
      i := -1;
    }
  }

  /** A call can always go on, but for those that have to evaluate the spec, which need the lock. */
  lemma CallsGoOn(w: World, c: nat, tag: string)
    requires Inv(w) && c < |w.readers|
    ensures match w.readers[c]
      case Idle => Enabled(w, Call(c, tag))
      case Begun(_, _) => exists i :: Enabled(w, SeeItems(c, i))
      case FastPath(_, _, _, _) => Enabled(w, ReadLevel(c))
      case ArrayPath(_, _, _) => Enabled(w, ReadEntry(c))
      case EntryMissing(_, _, _) => w.lock.Free? ==> Enabled(w, FillEntry(c))
      case HashPath(_, _) => Enabled(w, CheckFlag(c))
      case Emptied(_, _) => Enabled(w, ResetFlag(c))
      case Looking(_, _) => Enabled(w, Lookup(c))
      case Missing(_, _) => w.lock.Free? ==> Enabled(w, EvalTag(c))
      case Evaluated(_, _, _) => Enabled(w, Insert(c))
      case Done(_, _, _) => Enabled(w, Leave(c))
  {
    hide CachesOk, ArrayOk, LiveOk, AllCacheable, Recent, Due, Exact, AnswerOk;
    assert ReaderOk(w.history, w.tags, w.pending, w.returned, c, w.caches[c], w.readers[c]);
    hide ReadersOk;
    if w.readers[c].Begun? {
      var i := TagIsMapped(w.tags, w.readers[c].tag);
      assert Enabled(w, SeeItems(c, i));
    }
  }

  /** A change can go on while the lock is free; one that is made can clear what it has to, and then return. */
  lemma ChangesGoOn(w: World, k: nat, v: nat, slot: Slot, spec: Spec, direction: int, amount: int)
    requires Inv(w) && AllCacheable(spec)
    ensures w.lock.Free? ==> Enabled(w, Wipe(spec))
    ensures k !in w.changers ==> Enabled(w, Note(k))
    ensures k in w.changers && w.changers[k].Noted? && w.lock.Free? ==> Enabled(w, SetLevel(k, direction, amount))
    ensures k in w.changers && w.changers[k].Published? ==> Enabled(w, Compare(k))
    ensures v in w.pending && v !in w.undecided ==> if w.pending[v] == {} then Enabled(w, Return(v)) else
      slot in w.pending[v] ==> Enabled(w, Clear(v, slot))
    ensures Enabled(w, Grab) && (slot in AllSlots(w) ==> Enabled(w, Flush(slot)))
  {
    hide CachesOk, ArrayOk, ReadersOk, LiveOk, AllCacheable, AllSlots;
  }
}
