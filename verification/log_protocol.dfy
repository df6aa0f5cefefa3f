/**
 * The verbosity caches of src/log.c while other threads change the spec.
 *
 * Every thread that logs has a hash cache of its own; a shared array caches the verbosity of the tags
 * known beforehand.  A change is made under the spec lock, and only then are the caches cleared, one at
 * a time.  Readers take the spec lock only to evaluate the spec: what decides whether it is evaluated
 * at all they read without it, and so they see the spec while it is being wiped, copied or set.  A step
 * is what one thread does between two points where others can come in, with or without the lock.  A
 * spec is published by the write that completes it.  Published specs are numbered; a cached value
 * carries the number of the spec it was computed from, which no step looks at.
 */
module LogCaches {
  import opened Arithmetic
  import opened LogSpec

  datatype Stamped = Stamped(value: int, version: nat)

  /** ZLogTagCache; the C table holds the value plus one, zero being "not there". */
  datatype Cache = Cache(emptyHash: bool, table: map<string, Stamped>)

  /** A byte of log_mapped_tags_verb. */
  datatype Entry = Entry(byte: nat, version: nat)

  /** What a clear resets: the flag of a cache, or a byte of the array. */
  datatype Slot = Flag(cache: nat) | Verb(index: nat)

  /**
   * No items were seen when spec `seen` was current, and then the level `value` when spec `version` was.
   * `wiped`: the current spec did have items; `raw`: the current spec had another level.
   */
  datatype Answer =
    | Default(seen: nat, wiped: bool, value: int, version: nat, raw: bool)
    | Known(found: Stamped)

  /** Where a call of z_log_enabled_len is; `since` is the newest spec whose change had returned when it began. */
  datatype Reader =
    | Idle
    | Begun(tag: string, since: nat)
    | FastPath(tag: string, since: nat, seen: nat, wiped: bool)
    | ArrayPath(tag: string, since: nat, index: nat)
    | EntryMissing(tag: string, since: nat, index: nat)
    | HashPath(tag: string, since: nat)
    | Emptied(tag: string, since: nat)
    | Looking(tag: string, since: nat)
    | Missing(tag: string, since: nat)
    | Evaluated(tag: string, since: nat, found: Stamped)
    | Done(tag: string, since: nat, answer: Answer)

  /** A call of z_log_change_verbose_level; version 0 when the level did not change. */
  datatype Changer = Noted(before: int) | Setting(before: int) | Published(before: int, version: nat)

  /**
   * log_spec_lock, and what its holder is doing to log_spec: a new spec is being copied over the old one,
   * whose items are gone, and these words are there already; or a level out of range is being corrected.
   */
  datatype Lock = Free | Wiping(spec: Spec, items: bool, level: bool) | Adjusting(k: nat)

  datatype World = World(
    history: seq<Spec>,            // all specs published so far
    tags: seq<string>,             // the tags with a place in the array
    entries: seq<Entry>,
    caches: seq<Cache>,
    readers: seq<Reader>,          // one for each cache
    pending: map<nat, set<Slot>>,  // changes that have not returned, and what they have not cleared yet
    undecided: set<nat>,           // those that have not got as far as clearing
    returned: nat,                 // the newest spec whose change has returned
    changers: map<nat, Changer>,
    live: Spec,                    // log_spec, as it is seen without the lock
    lock: Lock)

  function Current(w: World): nat
    requires w.history != []
  {
    |w.history| - 1
  }

  function Now(w: World): Spec
    requires w.history != []
  {
    w.history[|w.history| - 1]
  }

  /** The byte that stands for a verbosity. */
  function ByteFor(level: int): (byte: nat)
    ensures byte < 256 && (byte - 1 - level) % 256 == 0
  {
    (level % 256 + 1) % 256
  }

  /** The array gives a verbosity back, or nothing, exactly for these levels. */
  lemma ByteIsExact(level: int)
    ensures (ByteFor(level) == 0 || ByteFor(level) - 1 == level) <==> (0 <= level < 255 || level % 256 == 255)
  {}

  predicate Cacheable(level: int) {
    0 <= level <= 255
  }

  ghost predicate AllCacheable(spec: Spec) {
    Cacheable(spec.level) && forall i :: 0 <= i < |spec.items| ==> Cacheable(spec.items[i].level)
  }

  lemma {:induction false} EvalCacheable(items: seq<Item>, tag: string, level: int)
    requires Cacheable(level) && forall i :: 0 <= i < |items| ==> Cacheable(items[i].level)
    ensures Cacheable(FirstMatch(items, tag, level))
    ensures FirstMatch(items, tag, level) == level || exists i :: 0 <= i < |items| && items[i].level == FirstMatch(items, tag, level)
  {
    hide Matches;
    if items != [] {
      assert forall i :: 0 <= i < |items[1..]| ==> items[1..][i] == items[i + 1];
      EvalCacheable(items[1..], tag, level);
    }
  }

  /** The level asked for. */
  function RawLevel(level: int, direction: int, amount: int): int {
    if direction < 0 then level - amount else if direction == 0 then amount else level + amount
  }

  function Clamp(n: int): int {
    if n < 0 then 0 else if n > 10 then 10 else n
  }

  /** The level asked for, kept between 0 and 10. */
  function NewLevel(level: int, direction: int, amount: int): int {
    Clamp(RawLevel(level, direction, amount))
  }

  function Distance(a: int, b: int): nat {
    if a < b then b - a else a - b
  }

  /** Of the levels from 0 to 10, `level` is the one nearest to what was asked for. */
  ghost predicate Nearest(level: int, asked: int) {
    0 <= level <= 10 && forall other :: 0 <= other <= 10 ==> Distance(level, asked) <= Distance(other, asked)
  }

  lemma ClampIsNearest(asked: int)
    ensures Nearest(Clamp(asked), asked)
  {}

  ghost function AllSlots(w: World): set<Slot> {
    var flags := set c | 0 <= c < |w.caches| :: Flag(c);
    var bytes := set i | 0 <= i < |w.entries| :: Verb(i);
    flags + bytes
  }

  datatype Step =
    | Wipe(spec: Spec)                                    // z_log_change_logspec takes the lock and frees the items,
    | CopyItems                                           // and copies the new spec word by word,
    | CopyLevel                                           // in whatever order
    | Note(k: nat)                                        // z_log_change_verbose_level reads the level,
    | SetLevel(k: nat, direction: int, amount: int)       // takes the lock and sets it,
    | Settle(k: nat)                                      // corrects it,
    | Compare(k: nat)                                     // and compares
    | Clear(version: nat, slot: Slot)                     // z_log_clear_caches for a change
    | Return(version: nat)
    | Flush(slot: Slot)                                   // z_log_clear_caches without need
    | Grab                                                // z_log_grab_cache makes a new cache
    | Call(c: nat, tag: string)                           // z_log_enabled_len
    | SeeItems(c: nat, index: int)
    | ReadLevel(c: nat)
    | ReadEntry(c: nat)
    | FillEntry(c: nat)
    | CheckFlag(c: nat)
    | ResetFlag(c: nat)
    | Lookup(c: nat)
    | EvalTag(c: nat)
    | Insert(c: nat)
    | Leave(c: nat)

  ghost predicate Enabled(w: World, step: Step) {
    && w.history != [] && |w.readers| == |w.caches| && |w.entries| == |w.tags|
    && match step
       case Wipe(spec) => w.lock.Free? && AllCacheable(spec)
       case CopyItems => w.lock.Wiping? && !w.lock.items
       case CopyLevel => w.lock.Wiping? && !w.lock.level
       case Note(k) => k !in w.changers
       case SetLevel(k, _, _) => w.lock.Free? && k in w.changers && w.changers[k].Noted?
       case Settle(k) => w.lock == Adjusting(k) && k in w.changers && w.changers[k].Setting?
       case Compare(k) => k in w.changers && w.changers[k].Published?
       case Clear(v, slot) => v in w.pending && v !in w.undecided && slot in w.pending[v]
       case Return(v) => v in w.pending && v !in w.undecided && w.pending[v] == {}
       case Flush(slot) => slot in AllSlots(w)
       case Grab => true
       case Call(c, _) => c < |w.readers| && w.readers[c].Idle?
       case SeeItems(c, i) =>
         && c < |w.readers| && w.readers[c].Begun?
         && (if i < 0 then w.readers[c].tag !in w.tags else i < |w.tags| && w.tags[i] == w.readers[c].tag)
       case ReadLevel(c) => c < |w.readers| && w.readers[c].FastPath?
       case ReadEntry(c) => c < |w.readers| && w.readers[c].ArrayPath? && w.readers[c].index < |w.entries|
       case FillEntry(c) =>
         w.lock.Free? && c < |w.readers| && w.readers[c].EntryMissing? && w.readers[c].index < |w.entries|
       case CheckFlag(c) => c < |w.readers| && w.readers[c].HashPath?
       case ResetFlag(c) => c < |w.readers| && w.readers[c].Emptied?
       case Lookup(c) => c < |w.readers| && w.readers[c].Looking?
       case EvalTag(c) => w.lock.Free? && c < |w.readers| && w.readers[c].Missing?
       case Insert(c) => c < |w.readers| && w.readers[c].Evaluated?
       case Leave(c) => c < |w.readers| && w.readers[c].Done?
  }

  /** A new spec is complete, the lock is given up, and everything cached before is to be cleared. */
  ghost function Publication(w: World, spec: Spec): World {
    w.(history := w.history + [spec], pending := w.pending[|w.history| := AllSlots(w)], live := spec, lock := Free)
  }

  /** The level is settled: nothing has changed, or a new spec is published by change `k`. */
  ghost function LevelSet(w: World, k: nat, before: int, level: int): World
    requires w.history != []
  {
    if level == Now(w).level then
      w.(changers := w.changers[k := Published(before, 0)], live := Now(w), lock := Free)
    else
      Publication(w, Now(w).(level := level)).(
        changers := w.changers[k := Published(before, |w.history|)],
        undecided := w.undecided + {|w.history|})
  }

  function Cleared(w: World, slot: Slot): World {
    match slot
    case Flag(c) => if c < |w.caches| then w.(caches := w.caches[c := w.caches[c].(emptyHash := true)]) else w
    case Verb(i) => if i < |w.entries| then w.(entries := w.entries[i := Entry(0, 0)]) else w
  }

  function Moved(w: World, c: nat, r: Reader): World
    requires c < |w.readers|
  {
    w.(readers := w.readers[c := r])
  }

  /** The change to spec `v` returns. */
  function Ended(w: World, v: nat): World {
    w.(pending := w.pending - {v}, undecided := w.undecided - {v}, returned := Max(w.returned, v))
  }

  /** The caches are not cleared if the level read before the lock is the level now. */
  predicate Skips(w: World, k: nat)
    requires w.history != [] && k in w.changers
  {
    w.changers[k].Published? && w.changers[k].version != 0 && w.changers[k].before == w.live.level
  }

  ghost function Apply(w: World, step: Step): World
    requires Enabled(w, step)
  {
    match step
    case Wipe(spec) => w.(live := w.live.(items := []), lock := Wiping(spec, false, false))
    case CopyItems =>
      if w.lock.level then Publication(w, w.lock.spec)
      else w.(live := w.live.(items := w.lock.spec.items), lock := w.lock.(items := true))
    case CopyLevel =>
      if w.lock.items then Publication(w, w.lock.spec)
      else w.(live := w.live.(level := w.lock.spec.level), lock := w.lock.(level := true))
    case Note(k) => w.(changers := w.changers[k := Noted(w.live.level)])
    case SetLevel(k, direction, amount) =>
      var raw := RawLevel(w.live.level, direction, amount);
      if 0 <= raw <= 10 then LevelSet(w, k, w.changers[k].before, raw)
      else
        w.(changers := w.changers[k := Setting(w.changers[k].before)],
           live := w.live.(level := raw), lock := Adjusting(k))
    case Settle(k) => LevelSet(w, k, w.changers[k].before, Clamp(w.live.level))
    case Compare(k) =>
      var v := w.changers[k].version;
      var w' := w.(changers := w.changers - {k});
      if Skips(w, k) then Ended(w', v) else w'.(undecided := w.undecided - {v})
    case Clear(v, slot) => Cleared(w, slot).(pending := w.pending[v := w.pending[v] - {slot}])
    case Return(v) => Ended(w, v)
    case Flush(slot) => Cleared(w, slot)
    case Grab => w.(caches := w.caches + [Cache(false, map[])], readers := w.readers + [Idle])
    case Call(c, tag) => Moved(w, c, Begun(tag, w.returned))
    case SeeItems(c, i) =>
      var r := w.readers[c];
      Moved(w, c,
        if w.live.items == [] then FastPath(r.tag, r.since, Current(w), Now(w).items != [])
        else if i < 0 then HashPath(r.tag, r.since)
        else ArrayPath(r.tag, r.since, i))
    case ReadLevel(c) =>
      var r := w.readers[c];
      Moved(w, c, Done(r.tag, r.since, Default(r.seen, r.wiped, w.live.level, Current(w), w.live.level != Now(w).level)))
    case ReadEntry(c) =>
      var r := w.readers[c];
      var e := w.entries[r.index];
      Moved(w, c,
        if e.byte == 0 then EntryMissing(r.tag, r.since, r.index)
        else Done(r.tag, r.since, Known(Stamped(e.byte - 1, e.version))))
    case FillEntry(c) =>
      var r := w.readers[c];
      var level := Eval(Now(w), r.tag);
      Moved(w, c, Done(r.tag, r.since, Known(Stamped(level, Current(w))))).(
        entries := w.entries[r.index := Entry(ByteFor(level), Current(w))])
    case CheckFlag(c) =>
      var r := w.readers[c];
      if w.caches[c].emptyHash then
        Moved(w, c, Emptied(r.tag, r.since)).(caches := w.caches[c := w.caches[c].(table := map[])])
      else Moved(w, c, Looking(r.tag, r.since))
    case ResetFlag(c) =>
      var r := w.readers[c];
      Moved(w, c, Looking(r.tag, r.since)).(caches := w.caches[c := w.caches[c].(emptyHash := false)])
    case Lookup(c) =>
      var r := w.readers[c];
      Moved(w, c,
        if r.tag in w.caches[c].table then Done(r.tag, r.since, Known(w.caches[c].table[r.tag]))
        else Missing(r.tag, r.since))
    case EvalTag(c) =>
      var r := w.readers[c];
      Moved(w, c, Evaluated(r.tag, r.since, Stamped(Eval(Now(w), r.tag), Current(w))))
    case Insert(c) =>
      var r := w.readers[c];
      Moved(w, c, Done(r.tag, r.since, Known(r.found))).(
        caches := w.caches[c := w.caches[c].(table := w.caches[c].table[r.tag := r.found])])
    case Leave(c) => Moved(w, c, Idle)
  }

  // ----- the invariant -----

  /** Every spec after `v` still has this slot to clear. */
  ghost predicate Due(n: nat, pending: map<nat, set<Slot>>, slot: Slot, v: nat) {
    forall u :: v < u < n ==> u in pending && slot in pending[u]
  }

  ghost predicate Exact(history: seq<Spec>, tag: string, s: Stamped) {
    s.version < |history| && s.value == Eval(history[s.version], tag)
  }

  ghost predicate CacheOk(history: seq<Spec>, pending: map<nat, set<Slot>>, c: nat, cache: Cache) {
    forall tag :: tag in cache.table ==>
      && Exact(history, tag, cache.table[tag])
      && (cache.emptyHash || Due(|history|, pending, Flag(c), cache.table[tag].version))
  }

  ghost predicate EntryOk(history: seq<Spec>, pending: map<nat, set<Slot>>, i: nat, tag: string, e: Entry) {
    e.byte != 0 ==>
      Exact(history, tag, Stamped(e.byte - 1, e.version)) && Due(|history|, pending, Verb(i), e.version)
  }

  /**
   * An answer comes from specs at least as new as every change that had returned when the call began; a
   * cached or evaluated one is that of a single spec, and so is what was seen of a complete one.
   */
  ghost predicate AnswerOk(history: seq<Spec>, tag: string, since: nat, a: Answer) {
    match a
    case Default(seen, wiped, value, version, raw) =>
      && since <= seen <= version < |history|
      && (!wiped ==> history[seen].items == [])
      && (!raw ==> value == history[version].level)
    case Known(found) => since <= found.version && Exact(history, tag, found)
  }

  /** No value in the cache is older than the call. */
  ghost predicate Recent(cache: Cache, since: nat) {
    forall tag :: tag in cache.table ==> since <= cache.table[tag].version
  }

  ghost predicate ReaderOk(history: seq<Spec>, tags: seq<string>, pending: map<nat, set<Slot>>, returned: nat,
      c: nat, cache: Cache, r: Reader)
  {
    match r
    case Idle => true
    case Begun(_, since) => since <= returned
    case FastPath(_, since, seen, wiped) => since <= seen < |history| && (!wiped ==> history[seen].items == [])
    case ArrayPath(tag, since, i) => since <= returned && i < |tags| && tags[i] == tag
    case EntryMissing(tag, since, i) => since <= returned && i < |tags| && tags[i] == tag
    case HashPath(_, since) => since <= returned
    case Emptied(_, since) => since <= returned && cache.table == map[]
    case Looking(_, since) => since <= returned && Recent(cache, since)
    case Missing(_, since) => since <= returned
    case Evaluated(tag, since, found) =>
      && since <= found.version && Exact(history, tag, found)
      && (cache.emptyHash || Due(|history|, pending, Flag(c), found.version))
    case Done(tag, since, answer) => AnswerOk(history, tag, since, answer)
  }

  ghost predicate Numbers(w: World) {
    && w.history != [] && |w.readers| == |w.caches| && |w.entries| == |w.tags|
    && w.returned < |w.history| && w.returned !in w.pending
    && (forall v :: v in w.pending ==> v < |w.history|)
    && (forall v :: 0 <= v < |w.history| ==> AllCacheable(w.history[v]))
  }

  ghost predicate CachesOk(w: World) {
    forall c :: 0 <= c < |w.caches| ==> CacheOk(w.history, w.pending, c, w.caches[c])
  }

  ghost predicate ArrayOk(w: World)
    requires |w.entries| == |w.tags|
  {
    forall i :: 0 <= i < |w.entries| ==> EntryOk(w.history, w.pending, i, w.tags[i], w.entries[i])
  }

  ghost predicate ReadersOk(w: World)
    requires |w.readers| == |w.caches|
  {
    forall c :: 0 <= c < |w.caches| ==>
      ReaderOk(w.history, w.tags, w.pending, w.returned, c, w.caches[c], w.readers[c])
  }

  /** What can be seen of the spec without the lock. */
  ghost predicate LiveOk(w: World)
    requires w.history != []
  {
    match w.lock
    case Free => w.live == Now(w)
    case Wiping(spec, items, level) =>
      && AllCacheable(spec) && !(items && level)
      && w.live == Spec(if items then spec.items else [], if level then spec.level else Now(w).level)
    case Adjusting(k) =>
      && k in w.changers && w.changers[k].Setting?
      && w.live.items == Now(w).items && !(0 <= w.live.level <= 10)
  }

  ghost predicate Inv(w: World) {
    Numbers(w) && CachesOk(w) && ArrayOk(w) && ReadersOk(w) && LiveOk(w)
  }

  // ----- publishing -----

  lemma DueAfterPublish(n: nat, pending: map<nat, set<Slot>>, all: set<Slot>, slot: Slot, v: nat)
    requires Due(n, pending, slot, v) && slot in all
    ensures Due(n + 1, pending[n := all], slot, v)
  {}

  lemma ExactAfterPublish(history: seq<Spec>, spec: Spec, tag: string, s: Stamped)
    requires Exact(history, tag, s)
    ensures Exact(history + [spec], tag, s)
  {
    hide Eval;
  }

  lemma CacheAfterPublish(history: seq<Spec>, spec: Spec, pending: map<nat, set<Slot>>, all: set<Slot>, c: nat, cache: Cache)
    requires CacheOk(history, pending, c, cache) && Flag(c) in all
    ensures CacheOk(history + [spec], pending[|history| := all], c, cache)
  {
    hide Exact, Due;
    forall tag | tag in cache.table
      ensures Exact(history + [spec], tag, cache.table[tag])
      ensures cache.emptyHash || Due(|history + [spec]|, pending[|history| := all], Flag(c), cache.table[tag].version)
    {
      ExactAfterPublish(history, spec, tag, cache.table[tag]);
      if !cache.emptyHash {
        DueAfterPublish(|history|, pending, all, Flag(c), cache.table[tag].version);
      }
    }
  }

  lemma EntryAfterPublish(history: seq<Spec>, spec: Spec, pending: map<nat, set<Slot>>, all: set<Slot>,
      i: nat, tag: string, e: Entry)
    requires EntryOk(history, pending, i, tag, e) && Verb(i) in all
    ensures EntryOk(history + [spec], pending[|history| := all], i, tag, e)
  {
    hide Exact, Due;
    if e.byte != 0 {
      ExactAfterPublish(history, spec, tag, Stamped(e.byte - 1, e.version));
      DueAfterPublish(|history|, pending, all, Verb(i), e.version);
    }
  }

  lemma ReaderAfterPublish(history: seq<Spec>, spec: Spec, tags: seq<string>, pending: map<nat, set<Slot>>, all: set<Slot>,
      returned: nat, c: nat, cache: Cache, r: Reader)
    requires ReaderOk(history, tags, pending, returned, c, cache, r) && Flag(c) in all
    ensures ReaderOk(history + [spec], tags, pending[|history| := all], returned, c, cache, r)
  {
    hide Exact, Due;
    if r.Evaluated? {
      ExactAfterPublish(history, spec, r.tag, r.found);
      if !cache.emptyHash {
        DueAfterPublish(|history|, pending, all, Flag(c), r.found.version);
      }
    } else if r.Done? && r.answer.Known? {
      ExactAfterPublish(history, spec, r.tag, r.answer.found);
    }
  }

  lemma PublishKeeps(w: World, spec: Spec)
    requires Inv(w) && AllCacheable(spec)
    ensures Inv(Publication(w, spec))
  {
    var w', all := Publication(w, spec), AllSlots(w);
    hide AllCacheable, CacheOk, EntryOk, ReaderOk;
    assert Numbers(w');
    forall c | 0 <= c < |w.caches|
      ensures CacheOk(w'.history, w'.pending, c, w.caches[c])
      ensures ReaderOk(w'.history, w'.tags, w'.pending, w'.returned, c, w.caches[c], w.readers[c])
    {
      assert Flag(c) in all;
      CacheAfterPublish(w.history, spec, w.pending, all, c, w.caches[c]);
      ReaderAfterPublish(w.history, spec, w.tags, w.pending, all, w.returned, c, w.caches[c], w.readers[c]);
    }
    forall i | 0 <= i < |w.entries|
      ensures EntryOk(w'.history, w'.pending, i, w.tags[i], w.entries[i])
    {
      assert Verb(i) in all;
      EntryAfterPublish(w.history, spec, w.pending, all, i, w.tags[i], w.entries[i]);
    }
  }

  // ----- clearing and returning -----

  lemma DueElsewhere(n: nat, pending: map<nat, set<Slot>>, v: nat, cleared: Slot, slot: Slot, from: nat)
    requires Due(n, pending, slot, from) && v in pending && slot != cleared
    ensures Due(n, pending[v := pending[v] - {cleared}], slot, from)
  {}

  lemma ClearKeeps(w: World, v: nat, slot: Slot)
    requires Inv(w) && v in w.pending
    ensures Inv(Cleared(w, slot).(pending := w.pending[v := w.pending[v] - {slot}]))
  {
    hide AllCacheable, Exact, Due, CacheOk, ReaderOk, EntryOk;
    var pending := w.pending[v := w.pending[v] - {slot}];
    var w' := Cleared(w, slot).(pending := pending);
    assert Numbers(w');
    forall c | 0 <= c < |w.caches|
      ensures CacheOk(w'.history, pending, c, w'.caches[c])
      ensures ReaderOk(w'.history, w'.tags, pending, w'.returned, c, w'.caches[c], w'.readers[c])
    {
      ClearKeepsCache(w.history, w.tags, w.pending, w.returned, v, slot, c, w.caches[c], w.readers[c]);
    }
    forall i | 0 <= i < |w.entries|
      ensures EntryOk(w'.history, pending, i, w'.tags[i], w'.entries[i])
    {
      ClearKeepsEntry(w.history, w.pending, v, slot, i, w.tags[i], w.entries[i]);
    }
  }

  lemma ClearKeepsEntry(history: seq<Spec>, pending: map<nat, set<Slot>>, v: nat, slot: Slot, i: nat, tag: string, e: Entry)
    requires v in pending && EntryOk(history, pending, i, tag, e)
    ensures EntryOk(history, pending[v := pending[v] - {slot}], i, tag, if slot == Verb(i) then Entry(0, 0) else e)
  {
    hide Exact, Due;
    if slot != Verb(i) && e.byte != 0 {
      DueElsewhere(|history|, pending, v, slot, Verb(i), e.version);
    }
  }

  lemma ClearKeepsCache(history: seq<Spec>, tags: seq<string>, pending: map<nat, set<Slot>>, returned: nat,
      v: nat, slot: Slot, c: nat, cache: Cache, r: Reader)
    requires v in pending
    requires CacheOk(history, pending, c, cache) && ReaderOk(history, tags, pending, returned, c, cache, r)
    ensures var pending' := pending[v := pending[v] - {slot}];
      var cache' := if slot == Flag(c) then cache.(emptyHash := true) else cache;
      CacheOk(history, pending', c, cache') && ReaderOk(history, tags, pending', returned, c, cache', r)
  {
    hide Exact, Due;
    if slot == Flag(c) {
      assert cache.(emptyHash := true).table == cache.table;
    } else {
      forall tag | tag in cache.table && !cache.emptyHash
        ensures Due(|history|, pending[v := pending[v] - {slot}], Flag(c), cache.table[tag].version)
      {
        DueElsewhere(|history|, pending, v, slot, Flag(c), cache.table[tag].version);
      }
      if r.Evaluated? && !cache.emptyHash {
        DueElsewhere(|history|, pending, v, slot, Flag(c), r.found.version);
      }
    }
  }

  lemma FlushKeeps(w: World, slot: Slot)
    requires Inv(w)
    ensures Inv(Cleared(w, slot))
  {
    var w' := Cleared(w, slot);
    hide AllCacheable, Exact, Due;
    forall c | 0 <= c < |w.caches|
      ensures CacheOk(w.history, w.pending, c, w'.caches[c])
      ensures ReaderOk(w.history, w.tags, w.pending, w.returned, c, w'.caches[c], w.readers[c])
    {
      assert CacheOk(w.history, w.pending, c, w.caches[c]);
      assert ReaderOk(w.history, w.tags, w.pending, w.returned, c, w.caches[c], w.readers[c]);
      assert w'.caches[c].table == w.caches[c].table;
    }
    forall i | 0 <= i < |w.entries|
      ensures EntryOk(w.history, w.pending, i, w.tags[i], w'.entries[i])
    {
      assert EntryOk(w.history, w.pending, i, w.tags[i], w.entries[i]);
    }
  }

  lemma DueWithout(n: nat, pending: map<nat, set<Slot>>, v: nat, slot: Slot, from: nat)
    requires Due(n, pending, slot, from) && v in pending && v < n && pending[v] == {}
    ensures Due(n, pending - {v}, slot, from)
  {
    assert v <= from;
  }

  /** A change may return once it has cleared everything. */
  lemma ReturnKeeps(w: World, v: nat)
    requires Inv(w) && v in w.pending && w.pending[v] == {}
    ensures Inv(Ended(w, v))
  {
    var w', pending := Ended(w, v), w.pending - {v};
    hide AllCacheable, Exact, Due;
    assert v < |w.history|;
    assert Numbers(w');
    forall c | 0 <= c < |w.caches|
      ensures CacheOk(w.history, pending, c, w.caches[c])
      ensures ReaderOk(w.history, w.tags, pending, w'.returned, c, w.caches[c], w.readers[c])
    {
      assert CacheOk(w.history, w.pending, c, w.caches[c]);
      assert ReaderOk(w.history, w.tags, w.pending, w.returned, c, w.caches[c], w.readers[c]);
      ReturnKeepsCache(w.history, w.tags, w.pending, w.returned, v, c, w.caches[c], w.readers[c]);
    }
    forall i | 0 <= i < |w.entries|
      ensures EntryOk(w.history, pending, i, w.tags[i], w.entries[i])
    {
      assert EntryOk(w.history, w.pending, i, w.tags[i], w.entries[i]);
      if w.entries[i].byte != 0 {
        DueWithout(|w.history|, w.pending, v, Verb(i), w.entries[i].version);
      }
    }
  }

  lemma ReturnKeepsCache(history: seq<Spec>, tags: seq<string>, pending: map<nat, set<Slot>>, returned: nat,
      v: nat, c: nat, cache: Cache, r: Reader)
    requires v in pending && v < |history| && pending[v] == {}
    requires CacheOk(history, pending, c, cache) && ReaderOk(history, tags, pending, returned, c, cache, r)
    ensures CacheOk(history, pending - {v}, c, cache)
    ensures ReaderOk(history, tags, pending - {v}, Max(returned, v), c, cache, r)
  {
    hide Exact, Due;
    forall tag | tag in cache.table && !cache.emptyHash
      ensures Due(|history|, pending - {v}, Flag(c), cache.table[tag].version)
    {
      DueWithout(|history|, pending, v, Flag(c), cache.table[tag].version);
    }
    if r.Evaluated? && !cache.emptyHash {
      DueWithout(|history|, pending, v, Flag(c), r.found.version);
    }
  }

  // ----- readers -----

  /** One reader moves on, and perhaps changes its own cache. */
  lemma MoveKeeps(w: World, c: nat, cache: Cache, r: Reader)
    requires Inv(w) && c < |w.readers|
    requires CacheOk(w.history, w.pending, c, cache)
    requires ReaderOk(w.history, w.tags, w.pending, w.returned, c, cache, r)
    ensures Inv(Moved(w, c, r).(caches := w.caches[c := cache]))
  {
    hide AllCacheable, CacheOk, EntryOk, ReaderOk;
  }

  lemma SameCache(w: World, c: nat)
    requires c < |w.caches|
    ensures w.caches[c := w.caches[c]] == w.caches
  {}

  /** A value that has to be kept is no older than any change that has returned. */
  lemma DueIsRecent(w: World, slot: Slot, v: nat)
    requires Numbers(w) && Due(|w.history|, w.pending, slot, v)
    ensures w.returned <= v
  {
    assert v < w.returned < |w.history| ==> w.returned in w.pending;
  }

  /** What the invariant says of one call and its cache. */
  lemma Here(w: World, c: nat)
    requires Inv(w) && c < |w.readers|
    ensures Numbers(w) && c < |w.caches| && CacheOk(w.history, w.pending, c, w.caches[c])
    ensures ReaderOk(w.history, w.tags, w.pending, w.returned, c, w.caches[c], w.readers[c])
  {
    hide CacheOk, ReaderOk;
  }

  lemma EntryHere(w: World, i: nat)
    requires Inv(w) && i < |w.entries|
    ensures EntryOk(w.history, w.pending, i, w.tags[i], w.entries[i])
  {
    hide EntryOk;
  }

  lemma CheckFlagKeeps(w: World, c: nat)
    requires Inv(w) && Enabled(w, CheckFlag(c))
    ensures Inv(Apply(w, CheckFlag(c)))
  {
    hide Inv;
    Here(w, c);
    var r, cache := w.readers[c], w.caches[c];
    if cache.emptyHash {
      MoveKeeps(w, c, cache.(table := map[]), Emptied(r.tag, r.since));
    } else {
      forall tag | tag in cache.table
        ensures r.since <= cache.table[tag].version
      {
        DueIsRecent(w, Flag(c), cache.table[tag].version);
      }
      SameCache(w, c);
      MoveKeeps(w, c, cache, Looking(r.tag, r.since));
    }
  }

  lemma ResetFlagKeeps(w: World, c: nat)
    requires Inv(w) && Enabled(w, ResetFlag(c))
    ensures Inv(Apply(w, ResetFlag(c)))
  {
    hide Inv;
    Here(w, c);
    var r, cache := w.readers[c], w.caches[c];
    MoveKeeps(w, c, cache.(emptyHash := false), Looking(r.tag, r.since));
  }

  lemma LookupKeeps(w: World, c: nat)
    requires Inv(w) && Enabled(w, Lookup(c))
    ensures Inv(Apply(w, Lookup(c)))
  {
    hide Inv;
    Here(w, c);
    var r, cache := w.readers[c], w.caches[c];
    hide Exact, Due;
    SameCache(w, c);
    if r.tag in cache.table {
      assert r.since <= cache.table[r.tag].version;
      MoveKeeps(w, c, cache, Done(r.tag, r.since, Known(cache.table[r.tag])));
    } else {
      MoveKeeps(w, c, cache, Missing(r.tag, r.since));
    }
  }

  lemma EvalTagKeeps(w: World, c: nat)
    requires Inv(w) && Enabled(w, EvalTag(c))
    ensures Inv(Apply(w, EvalTag(c)))
  {
    hide Inv;
    Here(w, c);
    var r, cache := w.readers[c], w.caches[c];
    hide Eval, CacheOk;
    SameCache(w, c);
    var found := Stamped(Eval(Now(w), r.tag), Current(w));
    assert Due(|w.history|, w.pending, Flag(c), found.version);
    MoveKeeps(w, c, cache, Evaluated(r.tag, r.since, found));
  }

  lemma InsertKeeps(w: World, c: nat)
    requires Inv(w) && Enabled(w, Insert(c))
    ensures Inv(Apply(w, Insert(c)))
  {
    hide Inv;
    Here(w, c);
    var r, cache := w.readers[c], w.caches[c];
    hide Exact, Due;
    MoveKeeps(w, c, cache.(table := cache.table[r.tag := r.found]), Done(r.tag, r.since, Known(r.found)));
  }

  lemma ReadEntryKeeps(w: World, c: nat)
    requires Inv(w) && Enabled(w, ReadEntry(c))
    ensures Inv(Apply(w, ReadEntry(c)))
  {
    hide Inv;
    Here(w, c);
    var r, cache := w.readers[c], w.caches[c];
    var e := w.entries[r.index];
    EntryHere(w, r.index);
    hide Exact, CacheOk;
    SameCache(w, c);
    if e.byte == 0 {
      MoveKeeps(w, c, cache, EntryMissing(r.tag, r.since, r.index));
    } else {
      DueIsRecent(w, Verb(r.index), e.version);
      MoveKeeps(w, c, cache, Done(r.tag, r.since, Known(Stamped(e.byte - 1, e.version))));
    }
  }

  lemma FillEntryKeeps(w: World, c: nat)
    requires Inv(w) && Enabled(w, FillEntry(c))
    ensures Inv(Apply(w, FillEntry(c)))
  {
    hide Inv;
    Here(w, c);
    var r, cache := w.readers[c], w.caches[c];
    var level, now := Eval(Now(w), r.tag), Current(w);
    EvalCacheable(Now(w).items, r.tag, Now(w).level);
    hide Eval, CacheOk;
    ByteIsExact(level);
    var entry := Entry(ByteFor(level), now);
    assert Due(|w.history|, w.pending, Verb(r.index), now);
    assert EntryOk(w.history, w.pending, r.index, w.tags[r.index], entry);
    SameCache(w, c);
    MoveKeeps(w, c, cache, Done(r.tag, r.since, Known(Stamped(level, now))));
    var w1 := Moved(w, c, Done(r.tag, r.since, Known(Stamped(level, now))));
    EntryKeeps(w1, r.index, entry);
  }

  lemma EntryKeeps(w: World, i: nat, e: Entry)
    requires Inv(w) && i < |w.entries| && EntryOk(w.history, w.pending, i, w.tags[i], e)
    ensures Inv(w.(entries := w.entries[i := e]))
  {
    hide AllCacheable, CacheOk, EntryOk, ReaderOk;
  }

  lemma OtherMovesKeep(w: World, step: Step)
    requires Inv(w) && Enabled(w, step)
    requires step.Call? || step.SeeItems? || step.ReadLevel? || step.Leave?
    ensures Inv(Apply(w, step))
  {
    var c := step.c;
    hide Inv;
    Here(w, c);
    var r, cache := w.readers[c], w.caches[c];
    hide CacheOk, Due, Exact;
    SameCache(w, c);
    MoveKeeps(w, c, cache, Apply(w, step).readers[c]);
  }

  // ----- all steps -----

  lemma GrabKeeps(w: World)
    requires Inv(w)
    ensures Inv(w.(caches := w.caches + [Cache(false, map[])], readers := w.readers + [Idle]))
  {
    hide AllCacheable, Exact, Due;
    var w' := w.(caches := w.caches + [Cache(false, map[])], readers := w.readers + [Idle]);
    forall c | 0 <= c < |w'.caches|
      ensures CacheOk(w.history, w.pending, c, w'.caches[c])
      ensures ReaderOk(w.history, w.tags, w.pending, w.returned, c, w'.caches[c], w'.readers[c])
    {
      if c < |w.caches| {
        assert w'.caches[c] == w.caches[c] && w'.readers[c] == w.readers[c];
        hide CacheOk, ReaderOk;
      }
    }
  }

  lemma LevelSetKeeps(w: World, k: nat, before: int, level: int)
    requires Inv(w) && 0 <= level <= 10
    ensures Inv(LevelSet(w, k, before, level))
  {
    assert AllCacheable(Now(w));
    assert AllCacheable(Now(w).(level := level));
    if level != Now(w).level {
      PublishKeeps(w, Now(w).(level := level));
    }
    hide AllCacheable, CacheOk, EntryOk, ReaderOk;
  }

  lemma SetLevelKeeps(w: World, k: nat, direction: int, amount: int)
    requires Inv(w) && Enabled(w, SetLevel(k, direction, amount))
    ensures Inv(Apply(w, SetLevel(k, direction, amount)))
  {
    var raw := RawLevel(w.live.level, direction, amount);
    if 0 <= raw <= 10 {
      LevelSetKeeps(w, k, w.changers[k].before, raw);
      hide Inv;
    } else {
      hide AllCacheable, CacheOk, EntryOk, ReaderOk, RawLevel;
    }
  }

  /** Copying the words of a new spec, of which the second completes it. */
  lemma CopyKeeps(w: World, step: Step)
    requires Inv(w) && Enabled(w, step) && (step.CopyItems? || step.CopyLevel?)
    ensures Inv(Apply(w, step))
  {
    if w.lock.items || w.lock.level {
      PublishKeeps(w, w.lock.spec);
      hide Inv;
    } else {
      hide AllCacheable, CacheOk, EntryOk, ReaderOk;
    }
  }

  /** Nothing is lost unless a change returns without clearing. */
  ghost predicate Careful(w: World, step: Step)
    requires Enabled(w, step)
  {
    step.Compare? ==> !Skips(w, step.k)
  }

  lemma StepKeepsInv(w: World, step: Step)
    requires Inv(w) && Enabled(w, step) && Careful(w, step)
    ensures Inv(Apply(w, step))
  {
    match step
    case Wipe(spec) => hide CacheOk, EntryOk, ReaderOk, AllCacheable;
    case CopyItems => CopyKeeps(w, step);
    case CopyLevel => CopyKeeps(w, step);
    case Note(k) => hide CacheOk, EntryOk, ReaderOk, AllCacheable;
    case SetLevel(k, direction, amount) => SetLevelKeeps(w, k, direction, amount);
    case Settle(k) => LevelSetKeeps(w, k, w.changers[k].before, Clamp(w.live.level));
    case Compare(k) => hide CacheOk, EntryOk, ReaderOk, AllCacheable;
    case Clear(v, slot) => ClearKeeps(w, v, slot);
    case Return(v) => ReturnKeeps(w, v);
    case Flush(slot) => FlushKeeps(w, slot);
    case Grab => GrabKeeps(w);
    case Call(_, _) => OtherMovesKeep(w, step);
    case SeeItems(_, _) => OtherMovesKeep(w, step);
    case ReadLevel(_) => OtherMovesKeep(w, step);
    case ReadEntry(c) => ReadEntryKeeps(w, c);
    case FillEntry(c) => FillEntryKeeps(w, c);
    case CheckFlag(c) => CheckFlagKeeps(w, c);
    case ResetFlag(c) => ResetFlagKeeps(w, c);
    case Lookup(c) => LookupKeeps(w, c);
    case EvalTag(c) => EvalTagKeeps(w, c);
    case Insert(c) => InsertKeeps(w, c);
    case Leave(_) => OtherMovesKeep(w, step);
  }

  // ----- runs -----

  ghost predicate Possible(w: World, steps: seq<Step>)
    decreases |steps|
  {
    steps == [] || (Enabled(w, steps[0]) && Possible(Apply(w, steps[0]), steps[1..]))
  }

  ghost function After(w: World, steps: seq<Step>): World
    requires Possible(w, steps)
    decreases |steps|
  {
    if steps == [] then w else After(Apply(w, steps[0]), steps[1..])
  }

  ghost predicate AllCareful(w: World, steps: seq<Step>)
    requires Possible(w, steps)
    decreases |steps|
  {
    steps == [] || (Careful(w, steps[0]) && AllCareful(Apply(w, steps[0]), steps[1..]))
  }

  function Start(spec: Spec, tags: seq<string>): World {
    World([spec], tags, seq(|tags|, i => Entry(0, 0)), [], [], map[], {}, 0, map[], spec, Free)
  }

  lemma StartInv(spec: Spec, tags: seq<string>)
    requires AllCacheable(spec)
    ensures Inv(Start(spec, tags))
  {}

  lemma {:induction false} RunKeepsInv(w: World, steps: seq<Step>)
    requires Inv(w) && Possible(w, steps) && AllCareful(w, steps)
    ensures Inv(After(w, steps))
    decreases |steps|
  {
    hide Inv, Enabled, Apply, Careful;
    if steps != [] {
      StepKeepsInv(w, steps[0]);
      RunKeepsInv(Apply(w, steps[0]), steps[1..]);
    }
  }

  function Verbosity(a: Answer): int {
    match a
    case Default(_, _, value, _, _) => value
    case Known(found) => found.value
  }

  /** The call took what it saw of the spec from one complete spec. */
  predicate FromOneSpec(a: Answer) {
    match a
    case Default(seen, wiped, _, version, raw) => !wiped && !raw && seen == version
    case Known(_) => true
  }

  function VersionOf(a: Answer): nat {
    match a
    case Default(_, _, _, version, _) => version
    case Known(found) => found.version
  }

  /**
   * In every run in which no change of the level returns without clearing: a call that has its answer has
   * one from specs no older than any change that had returned when it began.  It is what the newest of
   * them says of the tag, if the call went by a cache or evaluated the spec, or saw all of one complete
   * spec.  A call that went by the default level of that spec, though it may have had items, is right about
   * its tag if and only if the first item for the tag, if there is one, has the default level too.
   */
  lemma CachesAreCoherent(spec: Spec, tags: seq<string>, steps: seq<Step>, c: nat)
    requires AllCacheable(spec) && Possible(Start(spec, tags), steps) && AllCareful(Start(spec, tags), steps)
    requires var w := After(Start(spec, tags), steps); c < |w.readers| && w.readers[c].Done?
    ensures var w := After(Start(spec, tags), steps);
      var r := w.readers[c];
      var v := VersionOf(r.answer);
      && AnswerOk(w.history, r.tag, r.since, r.answer) && r.since <= v < |w.history|
      && (FromOneSpec(r.answer) ==> Verbosity(r.answer) == Eval(w.history[v], r.tag))
      && (r.answer.Default? && !r.answer.raw ==>
          (Verbosity(r.answer) == Eval(w.history[v], r.tag) <==> ByDefault(w.history[v], r.tag)))
  {
    StartInv(spec, tags);
    RunKeepsInv(Start(spec, tags), steps);
    var w := After(Start(spec, tags), steps);
    var r := w.readers[c];
    assert ReaderOk(w.history, w.tags, w.pending, w.returned, c, w.caches[c], r);
    ByDefaultExactly(w.history[VersionOf(r.answer)], r.tag);
    hide Matches, FirstMatching, ByDefault;
  }

  /** A cached value that the current spec contradicts is about to go: the flag is set, or the clear is still due. */
  lemma StaleIsMarked(w: World, c: nat, tag: string)
    requires Inv(w) && c < |w.caches| && tag in w.caches[c].table
    requires w.caches[c].table[tag].value != Eval(Now(w), tag)
    ensures w.caches[c].emptyHash || (Current(w) in w.pending && Flag(c) in w.pending[Current(w)])
  {
    assert CacheOk(w.history, w.pending, c, w.caches[c]);
  }

  // ----- what calls see of a spec that is being changed -----

  /**
   * A call takes the fast path by mistake exactly while z_log_change_logspec is between freeing the items
   * of a spec that has some and copying those of the new one.
   */
  lemma SeenWiped(w: World, c: nat, index: int)
    requires Inv(w) && Enabled(w, SeeItems(c, index))
    ensures var r := Apply(w, SeeItems(c, index)).readers[c];
      (r.FastPath? && r.wiped) <==>
        Now(w).items != [] && w.lock.Wiping? && (w.lock.spec.items == [] || !w.lock.items)
  {
    hide AllCacheable, CacheOk, EntryOk, ReaderOk;
  }

  /**
   * It reads a level that is not the current one exactly while one out of range is being corrected, or
   * that of a new spec is there before its items.
   */
  lemma SeenRaw(w: World, c: nat)
    requires Inv(w) && Enabled(w, ReadLevel(c))
    ensures Apply(w, ReadLevel(c)).readers[c].answer.raw <==>
      || (w.lock.Adjusting? && w.live.level != Now(w).level)
      || (w.lock.Wiping? && w.lock.level && w.lock.spec.level != Now(w).level)
  {
    hide AllCacheable, CacheOk, EntryOk, ReaderOk;
  }

  /** A change of the level can be seen half done exactly if what was asked for is out of range, and new. */
  lemma LevelOutOfRangeIsSeen(w: World, k: nat, direction: int, amount: int)
    requires Inv(w) && Enabled(w, SetLevel(k, direction, amount))
    ensures var w' := Apply(w, SetLevel(k, direction, amount));
      var raw := RawLevel(Now(w).level, direction, amount);
      w'.history != [] && (w'.live == Now(w') <==> 0 <= raw <= 10 || raw == Now(w).level)
  {
    hide AllCacheable, CacheOk, EntryOk, ReaderOk, RawLevel;
  }

  /** Call `c` looks at the spec only while nobody changes it. */
  predicate Calm(w: World, step: Step, c: nat) {
    (step == ReadLevel(c) || (step.SeeItems? && step.c == c)) ==> w.lock.Free?
  }

  ghost predicate AllCalm(w: World, steps: seq<Step>, c: nat)
    requires Possible(w, steps)
    decreases |steps|
  {
    steps == [] || (Calm(w, steps[0], c) && AllCalm(Apply(w, steps[0]), steps[1..], c))
  }

  ghost predicate Clean(w: World, c: nat) {
    c < |w.readers| ==>
      match w.readers[c]
      case FastPath(_, _, _, wiped) => !wiped
      case Done(_, _, Default(_, wiped, _, _, raw)) => !wiped && !raw
      case _ => true
  }

  /** Steps that change the spec or belong to a change of the level. */
  predicate Changes(step: Step) {
    step.Wipe? || step.CopyItems? || step.CopyLevel? || step.Note? || step.SetLevel? || step.Settle? || step.Compare?
  }

  /** What belongs to changes is untouched by the other steps. */
  lemma OthersLeaveSpec(w: World, step: Step)
    requires Enabled(w, step) && !Changes(step)
    ensures var w' := Apply(w, step);
      w'.history == w.history && w'.changers == w.changers && w'.live == w.live && w'.lock == w.lock
  {
    hide AllCacheable, Eval, AllSlots;
  }

  /** A step of call `c`. */
  predicate Own(step: Step, c: nat) {
    !Changes(step) && !step.Clear? && !step.Return? && !step.Flush? && !step.Grab? && step.c == c
  }

  /** Steps that are not a call's leave all calls alone; there may be one more cache. */
  lemma ChangesLeaveCalls(w: World, step: Step)
    requires Enabled(w, step) && (Changes(step) || step.Clear? || step.Return? || step.Flush? || step.Grab?)
    ensures Apply(w, step).readers == w.readers + if step.Grab? then [Idle] else []
  {
    hide AllCacheable, Eval, AllSlots, RawLevel, Clamp, Skips;
  }

  lemma OthersLeaveCall(w: World, step: Step, c: nat)
    requires Enabled(w, step) && !Own(step, c) && c < |w.readers|
    ensures var w' := Apply(w, step); c < |w'.readers| && w'.readers[c] == w.readers[c]
  {
    if Changes(step) || step.Clear? || step.Return? || step.Flush? || step.Grab? {
      ChangesLeaveCalls(w, step);
      hide Apply, Enabled;
    } else {
      hide AllCacheable, Eval, ByteFor;
    }
  }

  lemma OwnStepKeepsClean(w: World, step: Step, c: nat)
    requires w.history != [] && LiveOk(w) && Enabled(w, step) && Own(step, c) && Calm(w, step, c) && Clean(w, c)
    ensures Clean(Apply(w, step), c)
  {
    hide AllCacheable, Eval, ByteFor;
  }

  lemma NewCallIsClean(w: World, step: Step, c: nat)
    requires Enabled(w, step) && c >= |w.readers|
    ensures Clean(Apply(w, step), c)
  {
    if Changes(step) || step.Clear? || step.Return? || step.Flush? || step.Grab? {
      ChangesLeaveCalls(w, step);
      hide Apply, Enabled;
    } else {
      hide AllCacheable, Eval, ByteFor;
      assert |Apply(w, step).readers| == |w.readers|;
    }
  }

  lemma StepKeepsClean(w: World, step: Step, c: nat)
    requires Inv(w) && Enabled(w, step) && Calm(w, step, c) && Clean(w, c)
    ensures Clean(Apply(w, step), c)
  {
    hide Numbers, CachesOk, ArrayOk, ReadersOk, LiveOk, Calm, Enabled, Apply;
    if c >= |w.readers| {
      NewCallIsClean(w, step, c);
    } else if Own(step, c) {
      HistoryThere(w);
      OwnStepKeepsClean(w, step, c);
    } else {
      OthersLeaveCall(w, step, c);
    }
  }

  lemma HistoryThere(w: World)
    requires Inv(w)
    ensures w.history != [] && LiveOk(w)
  {
    hide CachesOk, ArrayOk, ReadersOk, LiveOk;
  }

  lemma {:induction false} RunKeepsClean(w: World, steps: seq<Step>, c: nat)
    requires Inv(w) && Possible(w, steps) && AllCareful(w, steps) && AllCalm(w, steps, c) && Clean(w, c)
    ensures Clean(After(w, steps), c)
    decreases |steps|
  {
    hide Inv, Enabled, Apply, Careful, Calm, Clean;
    if steps != [] {
      StepKeepsInv(w, steps[0]);
      StepKeepsClean(w, steps[0], c);
      RunKeepsClean(Apply(w, steps[0]), steps[1..], c);
    }
  }

  /** A call that looks at the spec only while nobody changes it, and with no spec published since, is right. */
  lemma CalmCallsAreRight(spec: Spec, tags: seq<string>, steps: seq<Step>, c: nat)
    requires AllCacheable(spec) && Possible(Start(spec, tags), steps) && AllCareful(Start(spec, tags), steps)
    requires AllCalm(Start(spec, tags), steps, c)
    requires var w := After(Start(spec, tags), steps);
      c < |w.readers| && w.readers[c].Done? && w.history != [] && w.readers[c].since == Current(w)
    ensures var w := After(Start(spec, tags), steps);
      Verbosity(w.readers[c].answer) == Eval(Now(w), w.readers[c].tag)
  {
    StartInv(spec, tags);
    RunKeepsClean(Start(spec, tags), steps, c);
    CachesAreCoherent(spec, tags, steps, c);
    hide *;
    hide Eval;
  }

  /** Nobody changes the spec, and call `c` goes on. */
  predicate Quiet(step: Step, c: nat) {
    !step.Wipe? && !step.SetLevel? && step != Leave(c)
  }

  /** Call `c`, for this tag, began when the newest change had returned, and nobody changes the spec. */
  ghost predicate Waits(w: World, c: nat, tag: string, spec: Spec) {
    && w.history != [] && w.lock.Free? && w.live == Now(w) == spec && c < |w.readers|
    && !w.readers[c].Idle? && w.readers[c].tag == tag && w.readers[c].since == Current(w) && Clean(w, c)
  }

  /** While nobody holds the lock, changes of the level can only read it and compare. */
  lemma QuietLeavesSpec(w: World, step: Step, c: nat)
    requires Enabled(w, step) && Quiet(step, c) && w.lock.Free?
    ensures var w' := Apply(w, step); w'.history == w.history && w'.live == w.live && w'.lock == w.lock
  {
    if !Changes(step) {
      OthersLeaveSpec(w, step);
      hide Apply, Enabled;
    } else {
      hide AllCacheable, Skips;
    }
  }

  /** A call that goes on is the same call. */
  lemma OwnStepIsSameCall(w: World, step: Step, c: nat)
    requires Enabled(w, step) && Own(step, c) && Quiet(step, c) && c < |w.readers| && !w.readers[c].Idle?
    ensures var r, w' := w.readers[c], Apply(w, step);
      && c < |w'.readers| && !w'.readers[c].Idle?
      && w'.readers[c].tag == r.tag && w'.readers[c].since == r.since
  {
    hide AllCacheable, Eval, ByteFor;
  }

  lemma QuietStepKeeps(w: World, step: Step, c: nat, tag: string, spec: Spec)
    requires Inv(w) && Enabled(w, step) && Quiet(step, c) && Waits(w, c, tag, spec)
    ensures Waits(Apply(w, step), c, tag, spec)
  {
    hide Inv, Enabled, Apply, Clean, Quiet;
    assert Calm(w, step, c);
    StepKeepsClean(w, step, c);
    QuietLeavesSpec(w, step, c);
    if Own(step, c) {
      OwnStepIsSameCall(w, step, c);
    } else {
      OthersLeaveCall(w, step, c);
    }
  }

  lemma {:induction false} QuietRunKeeps(w: World, steps: seq<Step>, c: nat, tag: string, spec: Spec)
    requires Inv(w) && Possible(w, steps) && AllCareful(w, steps) && Waits(w, c, tag, spec)
    requires forall i :: 0 <= i < |steps| ==> Quiet(steps[i], c)
    ensures Inv(After(w, steps)) && Waits(After(w, steps), c, tag, spec)
    decreases |steps|
  {
    hide Inv, Enabled, Apply, Careful, Quiet, Waits;
    if steps != [] {
      StepKeepsInv(w, steps[0]);
      QuietStepKeeps(w, steps[0], c, tag, spec);
      QuietRunKeeps(Apply(w, steps[0]), steps[1..], c, tag, spec);
    }
  }

  lemma CallWaits(w: World, c: nat, tag: string)
    requires Inv(w) && Enabled(w, Call(c, tag)) && w.lock.Free? && w.returned == Current(w)
    ensures Waits(Apply(w, Call(c, tag)), c, tag, Now(w))
  {
    hide AllCacheable, CachesOk, ArrayOk, ReadersOk, Eval, AllSlots, Publication, LevelSet;
  }

  lemma WaitsIsRight(w: World, c: nat, tag: string, spec: Spec)
    requires Inv(w) && Waits(w, c, tag, spec) && w.readers[c].Done?
    ensures Verbosity(w.readers[c].answer) == Eval(spec, tag)
  {
    assert ReaderOk(w.history, w.tags, w.pending, w.returned, c, w.caches[c], w.readers[c]);
    hide AllCacheable, CachesOk, ArrayOk, ReadersOk;
  }

  /**
   * After any run, once the newest change has returned: a call that begins then, and is over before the
   * next change begins, is answered what the newest spec says, whatever is in the caches.
   */
  lemma AnsweredByTheNewestSpec(spec: Spec, tags: seq<string>, before: seq<Step>, c: nat, tag: string, during: seq<Step>)
    requires AllCacheable(spec) && Possible(Start(spec, tags), before) && AllCareful(Start(spec, tags), before)
    requires var w := After(Start(spec, tags), before);
      && Enabled(w, Call(c, tag)) && w.lock.Free? && w.returned == Current(w)
      && Possible(Apply(w, Call(c, tag)), during) && AllCareful(Apply(w, Call(c, tag)), during)
    requires forall i :: 0 <= i < |during| ==> Quiet(during[i], c)
    ensures var w := After(Start(spec, tags), before);
      var end := After(Apply(w, Call(c, tag)), during);
      && c < |end.readers|
      && (end.readers[c].Done? ==> Verbosity(end.readers[c].answer) == Eval(Now(w), tag))
  {
    hide Enabled, Apply, Possible, AllCareful, After, AllCacheable, CachesOk, ArrayOk, ReadersOk, LiveOk, Eval;
    var w := After(Start(spec, tags), before);
    var asked := Apply(w, Call(c, tag));
    var end := After(asked, during);
    StartInv(spec, tags);
    RunKeepsInv(Start(spec, tags), before);
    StepKeepsInv(w, Call(c, tag));
    CallWaits(w, c, tag);
    QuietRunKeeps(asked, during, c, tag, Now(w));
    if end.readers[c].Done? {
      WaitsIsRight(end, c, tag, Now(w));
    }
  }

  // ----- changes of the level that overlap -----

  /** A change of the level that published a spec did change the level. */
  ghost predicate ChangersOk(w: World) {
    && w.history != [] && LiveOk(w)
    && forall k :: k in w.changers && w.changers[k].Published? && w.changers[k].version != 0 ==>
      var v := w.changers[k].version;
      v < |w.history| && w.history[v].level != w.history[v - 1].level
  }

  lemma PublicationKeepsChangers(w: World, spec: Spec)
    requires ChangersOk(w)
    ensures ChangersOk(Publication(w, spec))
  {
    hide AllCacheable, AllSlots;
  }

  lemma LevelSetKeepsChangers(w: World, k: nat, before: int, level: int)
    requires ChangersOk(w)
    ensures ChangersOk(LevelSet(w, k, before, level))
  {
    hide AllCacheable, AllSlots;
  }

  /** A change that only moves on, or changes the spec under the lock. */
  lemma OtherChangesKeep(w: World, step: Step)
    requires ChangersOk(w) && Enabled(w, step)
    requires match step
      case Wipe(_) => true
      case CopyItems => !w.lock.level
      case CopyLevel => !w.lock.items
      case Note(_) => true
      case SetLevel(_, direction, amount) => !(0 <= RawLevel(w.live.level, direction, amount) <= 10)
      case Compare(_) => true
      case _ => false
    ensures ChangersOk(Apply(w, step))
  {
    hide AllCacheable, RawLevel, Skips, Publication, LevelSet;
  }

  lemma StepKeepsChangers(w: World, step: Step)
    requires ChangersOk(w) && Enabled(w, step)
    ensures ChangersOk(Apply(w, step))
  {
    hide ChangersOk, RawLevel, Clamp, Publication, LevelSet, AllCacheable;
    match step
    case CopyItems => if w.lock.level { PublicationKeepsChangers(w, w.lock.spec); } else { OtherChangesKeep(w, step); }
    case CopyLevel => if w.lock.items { PublicationKeepsChangers(w, w.lock.spec); } else { OtherChangesKeep(w, step); }
    case SetLevel(k, direction, amount) =>
      var raw := RawLevel(w.live.level, direction, amount);
      if 0 <= raw <= 10 { LevelSetKeepsChangers(w, k, w.changers[k].before, raw); } else { OtherChangesKeep(w, step); }
    case Settle(k) => LevelSetKeepsChangers(w, k, w.changers[k].before, Clamp(w.live.level));
    case Wipe(_) => OtherChangesKeep(w, step);
    case Note(_) => OtherChangesKeep(w, step);
    case Compare(_) => OtherChangesKeep(w, step);
    case _ => SameChangers(w, step);
  }

  lemma SameChangers(w: World, step: Step)
    requires ChangersOk(w) && Enabled(w, step) && !Changes(step)
    ensures ChangersOk(Apply(w, step))
  {
    OthersLeaveSpec(w, step);
    hide Enabled, Apply, AllCacheable;
  }

  /**
   * A clear is left out only if another change came between reading the level and comparing it, or is on
   * its way.
   */
  lemma SkipsOnlyWhenOverlapped(w: World, k: nat)
    requires w.history != [] && ChangersOk(w) && k in w.changers && Skips(w, k)
    ensures var v := w.changers[k].version;
      w.changers[k].before != w.history[v - 1].level || v != Current(w) || !w.lock.Free?
  {}

  /** No change that is going on has this slot still to clear. */
  ghost predicate NotToBeCleared(pending: map<nat, set<Slot>>, slot: Slot) {
    forall v :: v in pending ==> slot !in pending[v]
  }

  /** A cached value that the current spec contradicts, and that calls are going to find. */
  ghost predicate StaleForGood(w: World, c: nat, tag: string)
    requires w.history != [] && c < |w.caches| && tag in w.caches[c].table
  {
    && w.caches[c].table[tag].value != Eval(Now(w), tag)
    && !w.caches[c].emptyHash && NotToBeCleared(w.pending, Flag(c))
  }

  ghost predicate ByteStaleForGood(w: World, i: nat)
    requires w.history != [] && i < |w.entries| == |w.tags|
  {
    && w.entries[i].byte != 0 && w.entries[i].byte - 1 != Eval(Now(w), w.tags[i])
    && NotToBeCleared(w.pending, Verb(i))
  }

  /**
   * What a change leaves behind that returns without clearing: if its spec is still the current one, exactly
   * the values in unflagged caches that are older than this spec and contradicted by it, unless another change
   * happens to clear the cache yet; and nothing otherwise.
   */
  lemma LeftOutClearLeaves(w: World, k: nat, c: nat, tag: string)
    requires Inv(w) && Enabled(w, Compare(k)) && Skips(w, k) && c < |w.caches| && tag in w.caches[c].table
    ensures var v, found, w' := w.changers[k].version, w.caches[c].table[tag], Apply(w, Compare(k));
      && w'.history == w.history && w'.caches == w.caches
      && (StaleForGood(w', c, tag) <==>
           && v == Current(w) && found.version < v && found.value != Eval(Now(w), tag)
           && !w.caches[c].emptyHash && NotToBeCleared(w.pending - {v}, Flag(c)))
  {
    hide Inv, AllCacheable, Eval, ReaderOk;
    Here(w, c);
    var v, found := w.changers[k].version, w.caches[c].table[tag];
    assert Exact(w.history, tag, found);
    assert !w.caches[c].emptyHash ==> Due(|w.history|, w.pending, Flag(c), found.version);
    DueNow(w, Flag(c), found.version);
    assert Current(w) in w.pending && v != Current(w) ==> Current(w) in w.pending - {v};
    hide Due, CacheOk;
  }

  lemma DueNow(w: World, slot: Slot, v: nat)
    requires w.history != []
    ensures Due(|w.history|, w.pending, slot, v) && v < Current(w) ==>
      Current(w) in w.pending && slot in w.pending[Current(w)]
  {
  }

  /** And so for the bytes of the array that are not zero. */
  lemma LeftOutClearLeavesByte(w: World, k: nat, i: nat)
    requires Inv(w) && Enabled(w, Compare(k)) && Skips(w, k) && i < |w.entries|
    ensures var v, e, w' := w.changers[k].version, w.entries[i], Apply(w, Compare(k));
      && w'.history == w.history && w'.entries == w.entries && w'.tags == w.tags
      && (ByteStaleForGood(w', i) <==>
           && v == Current(w) && e.byte != 0 && e.version < v && e.byte - 1 != Eval(Now(w), w.tags[i])
           && NotToBeCleared(w.pending - {v}, Verb(i)))
  {
    hide Inv, AllCacheable, Eval;
    EntryHere(w, i);
    var v := w.changers[k].version;
    DueNow(w, Verb(i), w.entries[i].version);
    assert Current(w) in w.pending && v != Current(w) ==> Current(w) in w.pending - {v};
    hide Due;
  }

  ghost predicate Alone(w: World, step: Step)
    requires Enabled(w, step)
  {
    step.Compare? && w.changers[step.k].version != 0 ==>
      var ch := w.changers[step.k];
      ch.version == Current(w) && ch.before == w.history[ch.version - 1].level && w.lock.Free?
  }

  /** Whenever a change of the level compares, no other change has come in since it read the level. */
  ghost predicate WithoutOverlap(w: World, steps: seq<Step>)
    requires Possible(w, steps)
    decreases |steps|
  {
    steps == [] || (Alone(w, steps[0]) && WithoutOverlap(Apply(w, steps[0]), steps[1..]))
  }

  /** Changes that do not overlap never leave out a clear. */
  lemma {:induction false} WithoutOverlapIsCareful(w: World, steps: seq<Step>)
    requires ChangersOk(w) && Possible(w, steps) && WithoutOverlap(w, steps)
    ensures AllCareful(w, steps)
    decreases |steps|
  {
    if steps != [] {
      var step := steps[0];
      assert Enabled(w, step);
      if step.Compare? && Skips(w, step.k) {
        SkipsOnlyWhenOverlapped(w, step.k);
        assert false;
      }
      StepKeepsChangers(w, step);
      hide Enabled, Apply, Skips, ChangersOk;
      WithoutOverlapIsCareful(Apply(w, step), steps[1..]);
    }
  }

  function Level(level: int): Spec {
    Spec([Item("b", 1)], level)
  }

  lemma NoItemForA(level: int)
    ensures Eval(Level(level), "a") == level
  {
    var items := Level(level).items;
    MatchesStep("b", "a");
    assert Dot("b") == 1 && Dot("a") == 1;
    assert "b"[..1][0] != "a"[..1][0] && "b"[..1][0] != '*';
    hide Matches;
    assert !Matches(items[0].pattern, "a");
    FirstMatchDecides(items, "a", level, 1);
  }

  /** One thread with a cache, no tags known beforehand. */
  function One(history: seq<Spec>, cache: Cache, r: Reader, returned: nat, changers: map<nat, Changer>): World
    requires history != []
  {
    World(history, [], [], [cache], [r], map[], {}, returned, changers, history[|history| - 1], Free)
  }

  /** `steps` take `w` to `end`. */
  ghost predicate Leads(w: World, steps: seq<Step>, end: World) {
    Possible(w, steps) && After(w, steps) == end
  }

  lemma Nothing(w: World)
    ensures Leads(w, [], w)
  {}

  /** One step more. */
  lemma Then(w: World, done: seq<Step>, mid: World, step: Step, end: World, all: seq<Step>)
    requires Leads(w, done, mid) && Enabled(mid, step) && Apply(mid, step) == end
    requires all == done + [step]
    ensures Leads(w, all, end)
  {
    hide Enabled, Apply;
    assert [step][1..] == [];
    assert Possible(end, []) && After(end, []) == end;
    assert Leads(mid, [step], end);
    Joins(w, done, mid, [step], end);
  }

  lemma {:induction false} Joins(w: World, a: seq<Step>, mid: World, b: seq<Step>, end: World)
    requires Leads(w, a, mid) && Leads(mid, b, end)
    ensures Leads(w, a + b, end)
    decreases |a|
  {
    hide Enabled, Apply;
    if a == [] {
      assert a + b == b;
    } else {
      assert (a + b)[1..] == a[1..] + b;
      Joins(Apply(w, a[0]), a[1..], mid, b, end);
    }
  }

  // ----- spoilt answers -----

  /** Without comparisons no change of the level returns without clearing. */
  lemma {:induction false} NoCompareIsCareful(w: World, steps: seq<Step>)
    requires Possible(w, steps) && forall i :: 0 <= i < |steps| ==> !steps[i].Compare?
    ensures AllCareful(w, steps) && WithoutOverlap(w, steps)
    decreases |steps|
  {
    hide Enabled, Apply, Skips;
    if steps != [] {
      assert !steps[0].Compare?;
      NoCompareIsCareful(Apply(w, steps[0]), steps[1..]);
    }
  }

  function ForA(level: int): Spec {
    Spec([Item("a", level)], 3)
  }

  lemma ItemForA(level: int)
    ensures Eval(ForA(level), "a") == level
  {
    var items := ForA(level).items;
    MatchesItself("a");
    hide Matches;
    FirstMatchDecides(items, "a", 3, 0);
  }

  /** The spec "a:5" gives way to "a:6", and a call comes in between. */
  const WIPE: seq<Step> := [Grab, Wipe(ForA(6))]
  const CALL_FAST: seq<Step> := [Call(0, "a"), SeeItems(0, -1), ReadLevel(0)]

  function Wiped(r: Reader): World {
    World([ForA(5)], [], [], [Cache(false, map[])], [r], map[], {}, 0, map[], Spec([], 3), Wiping(ForA(6), false, false))
  }

  lemma WipeLeads()
    ensures Leads(Start(ForA(5), []), WIPE, Wiped(Idle))
  {
    hide Eval, Leads, AllSlots, Publication, LevelSet;
    var w0, w1 := Start(ForA(5), []), One([ForA(5)], Cache(false, map[]), Idle, 0, map[]);
    Nothing(w0);
    Then(w0, [], w0, Grab, w1, [Grab]);
    Then(w0, [Grab], w1, Wipe(ForA(6)), Wiped(Idle), WIPE);
  }

  lemma CallFastLeads()
    ensures Leads(Wiped(Idle), CALL_FAST, Wiped(Done("a", 0, Default(0, true, 3, 0, false))))
  {
    hide Eval, AllCacheable, Leads, AllSlots, Publication, LevelSet;
    var w0, w1, w2 := Wiped(Idle), Wiped(Begun("a", 0)), Wiped(FastPath("a", 0, 0, true));
    Nothing(w0);
    Then(w0, [], w0, Call(0, "a"), w1, [Call(0, "a")]);
    Then(w0, [Call(0, "a")], w1, SeeItems(0, -1), w2, [Call(0, "a"), SeeItems(0, -1)]);
    Then(w0, [Call(0, "a"), SeeItems(0, -1)], w2, ReadLevel(0), Wiped(Done("a", 0, Default(0, true, 3, 0, false))), CALL_FAST);
  }

  /** Changes do not overlap, and both specs agree that the tag has a level above 3; the answer is 3. */
  lemma WipedSpecSpoilsAnAnswer()
    ensures var w0, end := Start(ForA(5), []), Wiped(Done("a", 0, Default(0, true, 3, 0, false)));
      && Leads(w0, WIPE + CALL_FAST, end) && Possible(w0, WIPE + CALL_FAST) && WithoutOverlap(w0, WIPE + CALL_FAST)
      && Verbosity(end.readers[0].answer) == 3
      && Eval(Now(end), "a") == 5 && Eval(end.lock.spec, "a") == 6
  {
    ItemForA(5);
    ItemForA(6);
    var w0, end := Start(ForA(5), []), Wiped(Done("a", 0, Default(0, true, 3, 0, false)));
    WipeLeads();
    CallFastLeads();
    hide Eval, Leads, Possible, WithoutOverlap;
    Joins(w0, WIPE, Wiped(Idle), CALL_FAST, end);
    LeadsIsPossible(w0, WIPE + CALL_FAST, end);
    NoCompareIsCareful(w0, WIPE + CALL_FAST);
  }

  lemma LeadsIsPossible(w: World, steps: seq<Step>, end: World)
    requires Leads(w, steps, end)
    ensures Possible(w, steps)
  {}

  /** The level 3 is raised by 20 while a call reads it. */
  const CALL_FIRST: seq<Step> := [Grab, Note(1), Call(0, "a"), SeeItems(0, -1)]
  const RAISE_TOO_FAR: seq<Step> := [SetLevel(1, 1, 20), ReadLevel(0), Settle(1)]

  function Raised(history: seq<Spec>, r: Reader, pending: map<nat, set<Slot>>, undecided: set<nat>, changer: Changer,
      live: Spec, lock: Lock): World
  {
    World(history, [], [], [Cache(false, map[])], [r], pending, undecided, 0, map[1 := changer], live, lock)
  }

  lemma CallFirstLeads()
    ensures Leads(Start(LEVEL_THREE, []), CALL_FIRST, BeforeRaise())
  {
    hide Eval, AllCacheable, Leads, AllSlots, Publication, LevelSet;
    var h := [Spec([], 3)];
    var w0, w1 := Start(h[0], []), One(h, Cache(false, map[]), Idle, 0, map[]);
    Nothing(w0);
    Then(w0, [], w0, Grab, w1, [Grab]);
    var w2 := Raised(h, Idle, map[], {}, Noted(3), h[0], Free);
    Then(w0, [Grab], w1, Note(1), w2, [Grab, Note(1)]);
    var w3 := w2.(readers := [Begun("a", 0)]);
    Then(w0, [Grab, Note(1)], w2, Call(0, "a"), w3, [Grab, Note(1), Call(0, "a")]);
    var w4 := w2.(readers := [FastPath("a", 0, 0, false)]);
    Then(w0, [Grab, Note(1), Call(0, "a")], w3, SeeItems(0, -1), w4, CALL_FIRST);
  }

  const LEVEL_THREE := Spec([], 3)
  const LEVEL_TEN := Spec([], 10)
  const READ_RAW := Done("a", 0, Default(0, false, 23, 0, true))

  /** Before the level is set, when it has been, when it has been read, and when it is settled. */
  function BeforeRaise(): World {
    Raised([LEVEL_THREE], FastPath("a", 0, 0, false), map[], {}, Noted(3), LEVEL_THREE, Free)
  }

  function WhileRaised(r: Reader): World {
    Raised([LEVEL_THREE], r, map[], {}, Setting(3), Spec([], 23), Adjusting(1))
  }

  function AfterRaise(): World {
    Raised([LEVEL_THREE, LEVEL_TEN], READ_RAW, map[1 := {Flag(0)}], {1}, Published(3, 1), LEVEL_TEN, Free)
  }

  lemma RaiseGoes()
    ensures Enabled(BeforeRaise(), SetLevel(1, 1, 20))
    ensures Apply(BeforeRaise(), SetLevel(1, 1, 20)) == WhileRaised(FastPath("a", 0, 0, false))
  {
    hide Eval, AllCacheable, AllSlots, Publication, LevelSet;
  }

  lemma ReadGoes()
    ensures Enabled(WhileRaised(FastPath("a", 0, 0, false)), ReadLevel(0))
    ensures Apply(WhileRaised(FastPath("a", 0, 0, false)), ReadLevel(0)) == WhileRaised(READ_RAW)
  {
    hide Eval, AllCacheable, AllSlots, Publication, LevelSet;
  }

  lemma SettleGoes()
    ensures Enabled(WhileRaised(READ_RAW), Settle(1)) && Apply(WhileRaised(READ_RAW), Settle(1)) == AfterRaise()
  {
    hide Eval, AllCacheable, AllSlots;
    OneFlag(WhileRaised(READ_RAW));
  }

  lemma RaiseTooFarLeads()
    ensures Leads(BeforeRaise(), RAISE_TOO_FAR, AfterRaise())
  {
    hide Enabled, Apply, Leads, BeforeRaise, WhileRaised, AfterRaise;
    var w0, w1, w2 := BeforeRaise(), WhileRaised(FastPath("a", 0, 0, false)), WhileRaised(READ_RAW);
    RaiseGoes();
    ReadGoes();
    SettleGoes();
    Nothing(w0);
    Then(w0, [], w0, SetLevel(1, 1, 20), w1, [SetLevel(1, 1, 20)]);
    Then(w0, [SetLevel(1, 1, 20)], w1, ReadLevel(0), w2, [SetLevel(1, 1, 20), ReadLevel(0)]);
    Then(w0, [SetLevel(1, 1, 20), ReadLevel(0)], w2, Settle(1), AfterRaise(), RAISE_TOO_FAR);
  }

  /** Changes do not overlap, and the level is 3 before and 10 after; the answer is 23. */
  lemma RawLevelSpoilsAnAnswer()
    ensures var w0, run := Start(LEVEL_THREE, []), CALL_FIRST + RAISE_TOO_FAR;
      && Leads(w0, run, AfterRaise()) && Possible(w0, run) && WithoutOverlap(w0, run)
      && Verbosity(AfterRaise().readers[0].answer) == 23
      && AfterRaise().history == [LEVEL_THREE, LEVEL_TEN]
  {
    hide Eval, Leads, Possible, WithoutOverlap;
    CallFirstLeads();
    RaiseTooFarLeads();
    Joins(Start(LEVEL_THREE, []), CALL_FIRST, BeforeRaise(), RAISE_TOO_FAR, AfterRaise());
    LeadsIsPossible(Start(LEVEL_THREE, []), CALL_FIRST + RAISE_TOO_FAR, AfterRaise());
    NoCompareIsCareful(Start(LEVEL_THREE, []), CALL_FIRST + RAISE_TOO_FAR);
  }

  lemma OneFlag(w: World)
    requires |w.caches| == 1 && w.entries == []
    ensures AllSlots(w) == {Flag(0)}
  {
    assert Flag(0) in AllSlots(w);
  }

  /** Two changes of the level, the first to read it being the last to set it. */
  const RAISE_SET: seq<Step> := [Grab, Note(1), Note(2), SetLevel(2, 0, 5)]
  const RAISE_CLEAR: seq<Step> := [Compare(2), Clear(1, Flag(0)), Return(1)]

  lemma RaiseSetLeads()
    ensures Leads(Start(Level(3), []), RAISE_SET, World([Level(3), Level(5)], [], [], [Cache(false, map[])], [Idle],
      map[1 := {Flag(0)}], {1}, 0, map[1 := Noted(3), 2 := Published(3, 1)], Level(5), Free))
  {
    hide Eval, AllCacheable, Leads, AllSlots;
    var w0 := Start(Level(3), []);
    var c := Cache(false, map[]);
    var w1 := One([Level(3)], c, Idle, 0, map[]);
    Nothing(w0);
    Then(w0, [], w0, Grab, w1, [Grab]);
    var w2 := w1.(changers := map[1 := Noted(3)]);
    Then(w0, [Grab], w1, Note(1), w2, [Grab, Note(1)]);
    var w3 := w1.(changers := map[1 := Noted(3), 2 := Noted(3)]);
    Then(w0, [Grab, Note(1)], w2, Note(2), w3, [Grab, Note(1), Note(2)]);
    OneFlag(w3);
    var w4 := World([Level(3), Level(5)], [], [], [c], [Idle], map[1 := {Flag(0)}], {1}, 0,
      map[1 := Noted(3), 2 := Published(3, 1)], Level(5), Free);
    Then(w0, [Grab, Note(1), Note(2)], w3, SetLevel(2, 0, 5), w4, [Grab, Note(1), Note(2), SetLevel(2, 0, 5)]);
  }

  lemma RaiseClearLeads(w0: World)
    requires w0 == World([Level(3), Level(5)], [], [], [Cache(false, map[])], [Idle],
      map[1 := {Flag(0)}], {1}, 0, map[1 := Noted(3), 2 := Published(3, 1)], Level(5), Free)
    ensures Leads(w0, RAISE_CLEAR, One([Level(3), Level(5)], Cache(true, map[]), Idle, 1, map[1 := Noted(3)]))
  {
    hide Eval, AllCacheable, Leads, AllSlots, Publication, LevelSet;
    var w1 := w0.(undecided := {}, changers := map[1 := Noted(3)]);
    assert map[1 := Noted(3), 2 := Published(3, 1)] - {2} == map[1 := Noted(3)];
    Nothing(w0);
    Then(w0, [], w0, Compare(2), w1, [Compare(2)]);
    var nothing: set<Slot> := {};
    assert {Flag(0)} - {Flag(0)} == nothing;
    var w2 := w1.(caches := [Cache(true, map[])], pending := map[1 := nothing]);
    assert w1.pending[1 := nothing] == map[1 := nothing];
    Then(w0, [Compare(2)], w1, Clear(1, Flag(0)), w2, [Compare(2), Clear(1, Flag(0))]);
    var w3 := One([Level(3), Level(5)], Cache(true, map[]), Idle, 1, map[1 := Noted(3)]);
    assert w2.pending - {1} == map[];
    Then(w0, [Compare(2), Clear(1, Flag(0))], w2, Return(1), w3, [Compare(2), Clear(1, Flag(0)), Return(1)]);
  }

  const CALL: seq<Step> := [Call(0, "a"), SeeItems(0, -1)]

  lemma CallLeads(h: seq<Spec>, cache: Cache, since: nat, ch: map<nat, Changer>)
    requires h != [] && h[|h| - 1].items != []
    ensures Leads(One(h, cache, Idle, since, ch), CALL, One(h, cache, HashPath("a", since), since, ch))
  {
    hide Eval, AllCacheable, Leads, AllSlots, Publication, LevelSet;
    var w0, w1 := One(h, cache, Idle, since, ch), One(h, cache, Begun("a", since), since, ch);
    Nothing(w0);
    Then(w0, [], w0, Call(0, "a"), w1, [Call(0, "a")]);
    Then(w0, [Call(0, "a")], w1, SeeItems(0, -1), One(h, cache, HashPath("a", since), since, ch),
      [Call(0, "a"), SeeItems(0, -1)]);
  }

  const EMPTY: seq<Step> := [CheckFlag(0), ResetFlag(0), Lookup(0)]
  const FILL: seq<Step> := [EvalTag(0), Insert(0), Leave(0)]

  lemma EmptyLeads(h: seq<Spec>, since: nat, ch: map<nat, Changer>)
    requires h != []
    ensures Leads(One(h, Cache(true, map[]), HashPath("a", since), since, ch), EMPTY,
      One(h, Cache(false, map[]), Missing("a", since), since, ch))
  {
    hide Eval, AllCacheable, Leads, AllSlots, Publication, LevelSet;
    var w0 := One(h, Cache(true, map[]), HashPath("a", since), since, ch);
    var w1 := One(h, Cache(true, map[]), Emptied("a", since), since, ch);
    Nothing(w0);
    Then(w0, [], w0, CheckFlag(0), w1, [CheckFlag(0)]);
    var w2 := One(h, Cache(false, map[]), Looking("a", since), since, ch);
    Then(w0, [CheckFlag(0)], w1, ResetFlag(0), w2, [CheckFlag(0), ResetFlag(0)]);
    LookupGoes(h, since, ch);
    hide Enabled, Apply, One;
    Then(w0, [CheckFlag(0), ResetFlag(0)], w2, Lookup(0), One(h, Cache(false, map[]), Missing("a", since), since, ch),
      [CheckFlag(0), ResetFlag(0), Lookup(0)]);
  }

  lemma LookupGoes(h: seq<Spec>, since: nat, ch: map<nat, Changer>)
    requires h != []
    ensures var w := One(h, Cache(false, map[]), Looking("a", since), since, ch);
      Enabled(w, Lookup(0)) && Apply(w, Lookup(0)) == One(h, Cache(false, map[]), Missing("a", since), since, ch)
  {
    hide Eval, AllCacheable, AllSlots, Publication, LevelSet;
  }

  lemma FillLeads(h: seq<Spec>, since: nat, ch: map<nat, Changer>, x: Stamped)
    requires h != [] && x == Stamped(Eval(h[|h| - 1], "a"), |h| - 1)
    ensures Leads(One(h, Cache(false, map[]), Missing("a", since), since, ch), FILL,
      One(h, Cache(false, map["a" := x]), Idle, since, ch))
  {
    hide Eval, AllCacheable, Leads, AllSlots, Publication, LevelSet;
    var w0 := One(h, Cache(false, map[]), Missing("a", since), since, ch);
    var w1 := One(h, Cache(false, map[]), Evaluated("a", since, x), since, ch);
    Nothing(w0);
    Then(w0, [], w0, EvalTag(0), w1, [EvalTag(0)]);
    var w2 := One(h, Cache(false, map["a" := x]), Done("a", since, Known(x)), since, ch);
    Then(w0, [EvalTag(0)], w1, Insert(0), w2, [EvalTag(0), Insert(0)]);
    LeaveGoes(h, since, ch, x);
    hide Enabled, Apply, One;
    Then(w0, [EvalTag(0), Insert(0)], w2, Leave(0), One(h, Cache(false, map["a" := x]), Idle, since, ch),
      [EvalTag(0), Insert(0), Leave(0)]);
  }

  lemma LeaveGoes(h: seq<Spec>, since: nat, ch: map<nat, Changer>, x: Stamped)
    requires h != []
    ensures var w := One(h, Cache(false, map["a" := x]), Done("a", since, Known(x)), since, ch);
      Enabled(w, Leave(0)) && Apply(w, Leave(0)) == One(h, Cache(false, map["a" := x]), Idle, since, ch)
  {
    hide Eval, AllCacheable, AllSlots, Publication, LevelSet;
  }

  const LOWER: seq<Step> := [SetLevel(1, 0, 3), Compare(1)]

  lemma LowerLeads(cache: Cache)
    ensures Leads(One([Level(3), Level(5)], cache, Idle, 1, map[1 := Noted(3)]), LOWER,
      One([Level(3), Level(5), Level(3)], cache, Idle, 2, map[]))
  {
    hide Eval, AllCacheable, AllSlots, Leads;
    var h := [Level(3), Level(5), Level(3)];
    var w0 := One([Level(3), Level(5)], cache, Idle, 1, map[1 := Noted(3)]);
    var w1 := World(h, [], [], [cache], [Idle], map[2 := AllSlots(w0)], {2}, 1, map[1 := Published(3, 2)],
      Level(3), Free);
    Nothing(w0);
    Then(w0, [], w0, SetLevel(1, 0, 3), w1, [SetLevel(1, 0, 3)]);
    var w2 := One(h, cache, Idle, 2, map[]);
    Then(w0, [SetLevel(1, 0, 3)], w1, Compare(1), w2, [SetLevel(1, 0, 3), Compare(1)]);
  }

  const HIT: seq<Step> := [CheckFlag(0), Lookup(0)]

  lemma HitLeads(h: seq<Spec>, x: Stamped, since: nat)
    requires h != []
    ensures var full := Cache(false, map["a" := x]);
      Leads(One(h, full, HashPath("a", since), since, map[]), HIT, One(h, full, Done("a", since, Known(x)), since, map[]))
  {
    hide Eval, AllCacheable, Leads, AllSlots, Publication, LevelSet;
    var full := Cache(false, map["a" := x]);
    var w0, w1 := One(h, full, HashPath("a", since), since, map[]), One(h, full, Looking("a", since), since, map[]);
    Nothing(w0);
    Then(w0, [], w0, CheckFlag(0), w1, [CheckFlag(0)]);
    Then(w0, [CheckFlag(0)], w1, Lookup(0), One(h, full, Done("a", since, Known(x)), since, map[]), [CheckFlag(0), Lookup(0)]);
  }

  /**
   * Where changes of the level overlap, a clear can be left out: every change has returned, nothing is due,
   * and the answer is still that of the spec before.
   */
  lemma OverlapLeavesAStaleAnswer()
    ensures var end := One([Level(3), Level(5), Level(3)], Cache(false, map["a" := Stamped(5, 1)]),
          Done("a", 2, Known(Stamped(5, 1))), 2, map[]);
      && Leads(Start(Level(3), []), RAISE_SET + RAISE_CLEAR + CALL + EMPTY + FILL + LOWER + CALL + HIT, end)
      && end.readers[0].since == Current(end) && end.pending == map[]
      && Verbosity(end.readers[0].answer) == 5 && Eval(Now(end), "a") == 3
  {
    NoItemForA(5);
    NoItemForA(3);
    var w0, ch, x := Start(Level(3), []), map[1 := Noted(3)], Stamped(5, 1);
    var h2, h3 := [Level(3), Level(5)], [Level(3), Level(5), Level(3)];
    var flagged, empty, full := Cache(true, map[]), Cache(false, map[]), Cache(false, map["a" := x]);
    var w1 := World(h2, [], [], [empty], [Idle], map[1 := {Flag(0)}], {1}, 0, map[1 := Noted(3), 2 := Published(3, 1)],
      Level(5), Free);
    var w2, w3 := One(h2, flagged, Idle, 1, ch), One(h2, flagged, HashPath("a", 1), 1, ch);
    var w4, w5 := One(h2, empty, Missing("a", 1), 1, ch), One(h2, full, Idle, 1, ch);
    var w6, w7 := One(h3, full, Idle, 2, map[]), One(h3, full, HashPath("a", 2), 2, map[]);
    var w8 := One(h3, full, Done("a", 2, Known(x)), 2, map[]);
    hide Leads, Eval;
    RaiseSetLeads();
    RaiseClearLeads(w1);
    Joins(w0, RAISE_SET, w1, RAISE_CLEAR, w2);
    CallLeads(h2, flagged, 1, ch);
    Joins(w0, RAISE_SET + RAISE_CLEAR, w2, CALL, w3);
    EmptyLeads(h2, 1, ch);
    Joins(w0, RAISE_SET + RAISE_CLEAR + CALL, w3, EMPTY, w4);
    FillLeads(h2, 1, ch, x);
    Joins(w0, RAISE_SET + RAISE_CLEAR + CALL + EMPTY, w4, FILL, w5);
    LowerLeads(full);
    Joins(w0, RAISE_SET + RAISE_CLEAR + CALL + EMPTY + FILL, w5, LOWER, w6);
    CallLeads(h3, full, 2, map[]);
    Joins(w0, RAISE_SET + RAISE_CLEAR + CALL + EMPTY + FILL + LOWER, w6, CALL, w7);
    HitLeads(h3, x, 2);
    Joins(w0, RAISE_SET + RAISE_CLEAR + CALL + EMPTY + FILL + LOWER + CALL, w7, HIT, w8);
  }
}
