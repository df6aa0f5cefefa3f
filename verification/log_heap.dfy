/** The log state of src/log.c and its functions, one call at a time. */
module LogState {
  import LogCaches
  import opened LogSpec
  import opened TextScan
  import opened Wrappers

  class LogTagCache {
    var emptyHash: bool
    var used: bool
    /** A verbosity plus one; zero is as good as nothing. */
    var tagHash: map<string, int>

    constructor ()
      ensures !emptyHash && !used && tagHash == map[]
    {
      emptyHash, used, tagHash := false, false, map[];
    }

    /** What the table says is what the spec says, unless the table is to be emptied. */
    ghost predicate Agrees(spec: Spec)
      reads this
    {
      emptyHash || forall tag :: tag in tagHash && tagHash[tag] != 0 ==> tagHash[tag] == Eval(spec, tag) + 1
    }
  }

  class Log {
    var spec: Spec
    var caches: seq<LogTagCache>
    const tags: seq<string>
    const verb: array<int>

    ghost predicate Distinct()
      reads this
    {
      && (forall i, j :: 0 <= i < j < |caches| ==> caches[i] != caches[j])
      && verb.Length == |tags|
    }

    /** Every cache agrees with the current spec. */
    ghost predicate Valid()
      reads this, caches, verb
    {
      && Distinct()
      && (forall i :: 0 <= i < |caches| ==> caches[i].Agrees(spec))
      && (forall i :: 0 <= i < |tags| ==> verb[i] != 0 ==> verb[i] == LogCaches.ByteFor(Eval(spec, tags[i])))
    }

    constructor (level: int, tags: seq<string>)
      ensures Valid() && spec == Spec([], level) && caches == [] && this.tags == tags && fresh(verb)
    {
      spec := Spec([], level);
      caches := [];
      this.tags := tags;
      verb := new int[|tags|](_ => 0);
    }

    /** z_log_clear_caches. */
    method ClearCaches()
      requires Distinct()
      modifies caches, verb
      ensures forall i :: 0 <= i < |caches| ==>
        caches[i].emptyHash && caches[i].tagHash == old(caches[i].tagHash) && caches[i].used == old(caches[i].used)
      ensures forall i :: 0 <= i < verb.Length ==> verb[i] == 0
      ensures Valid()
    {
      for i := 0 to |caches|
        invariant Distinct()
        invariant forall j :: 0 <= j < i ==> caches[j].emptyHash
        invariant forall j :: 0 <= j < |caches| ==>
          caches[j].tagHash == old(caches[j].tagHash) && caches[j].used == old(caches[j].used)
      {
        caches[i].emptyHash := true;
      }
      forall i | 0 <= i < verb.Length {
        verb[i] := 0;
      }
    }

    /** z_log_change_verbose_level. */
    method ChangeVerboseLevel(direction: int, value: int) returns (newValue: int)
      requires Valid()
      modifies this`spec, caches, verb
      ensures newValue == LogCaches.NewLevel(old(spec.level), direction, value)
      ensures direction < 0 ==> LogCaches.Nearest(newValue, old(spec.level) - value)
      ensures direction == 0 ==> LogCaches.Nearest(newValue, value)
      ensures direction > 0 ==> LogCaches.Nearest(newValue, old(spec.level) + value)
      ensures spec == old(spec).(level := newValue) && Valid()
    {
      var oldLevel := spec.level;
      var level := spec.level;
      if direction < 0 {
        level := level - value;
      } else if direction == 0 {
        level := value;
      } else {
        level := level + value;
      }
      LogCaches.ClampIsNearest(level);
      if level < 0 {
        level := 0;
      }
      if level > 10 {
        level := 10;
      }
      spec := spec.(level := level);
      if oldLevel != spec.level {
        ClearCaches();
      }
      return spec.level;
    }

    /** z_log_change_logspec with a new text: an invalid one changes nothing. */
    method ChangeLogspec(text: string) returns (ok: bool)
      requires Valid()
      modifies this`spec, caches, verb
      ensures ok <==> Parse(text).Some?
      ensures spec == (if ok then Spec(Parse(text).value, old(spec.level)) else old(spec)) && Valid()
    {
      var newSpec := SpecInit(text, spec.level);
      if newSpec.Some? {
        spec := newSpec.value;
        ClearCaches();
        return true;
      }
      return false;
    }

    /** z_log_grab_cache: the first cache that nobody uses, or a new one. */
    method GrabCache() returns (c: nat)
      requires Valid()
      modifies this`caches, caches
      ensures Valid() && c < |caches| && caches[c].used
      ensures |old(caches)| <= |caches| && caches[..|old(caches)|] == old(caches)
      ensures if c < |old(caches)|
        then caches == old(caches) && !old(caches[c].used) && old(caches)[c].tagHash == old(caches[c].tagHash)
        else c == |old(caches)| && |caches| == c + 1 && fresh(caches[c]) && caches[c].tagHash == map[]
      ensures forall i :: 0 <= i < c ==> old(caches)[i].used && old(caches[i].used)
    {
      c := 0;
      while c < |caches| && caches[c].used
        invariant c <= |caches|
        invariant forall i :: 0 <= i < c ==> caches[i].used
      {
        c := c + 1;
      }
      ghost var before := caches;
      if c == |caches| {
        var lc := new LogTagCache();
        caches := caches + [lc];
      }
      caches[c].used := true;
      assert caches[..|before|] == before;
    }

    /** log_map_tag: the place of a tag that is known beforehand. */
    method MapTag(tag: string) returns (i: int)
      ensures i == -1 ==> tag !in tags
      ensures i != -1 ==> 0 <= i < |tags| && tags[i] == tag
    {
      i := 0;
      while i < |tags|
        invariant 0 <= i <= |tags|
        invariant tag !in tags[..i]
      {
        if tags[i] == tag {
          return i;
        }
        i := i + 1;
      }
      assert tags[..|tags|] == tags;
      return -1;
    }

    /**
     * z_log_enabled_len on a thread with cache `c`, or with none.  Whatever is cached, the decision is that
     * of the current spec, provided a byte can hold its levels if the array is used; if not, it may be that
     * of the byte.
     */
    method EnabledLen(c: Option<nat>, tag: string, level: int) returns (enabled: bool)
      requires Valid() && (c.Some? ==> c.value < |caches|)
      modifies caches, verb
      ensures Valid() && spec == old(spec)
      ensures spec.items == [] ==> enabled == (level <= spec.level)
      ensures c.None? && tag !in tags ==> enabled == (level <= spec.level)
      ensures (if tag in tags then LogCaches.AllCacheable(spec) else c.Some?) ==> enabled == (level <= Eval(spec, tag))
      ensures spec.items != [] && tag in tags ==>
        || enabled == (level <= Eval(spec, tag))
        || enabled == (level <= LogCaches.ByteFor(Eval(spec, tag)) - 1)
      ensures forall i :: 0 <= i < |caches| && c != Some(i) ==>
        caches[i].emptyHash == old(caches[i].emptyHash) && caches[i].tagHash == old(caches[i].tagHash)
    {
      if spec.items == [] {
        return level <= spec.level;
      }
      var ndx := MapTag(tag);
      if ndx != -1 {
        var verbose := FromArray(ndx, tag);
        return level <= verbose;
      }
      if c.None? {
        return level <= spec.level;
      }
      var verbose := FromHash(c.value, tag);
      return level <= verbose;
    }

    /** The part of z_log_enabled_len that uses the array. */
    method FromArray(ndx: nat, tag: string) returns (verbose: int)
      requires Valid() && ndx < |tags| && tags[ndx] == tag
      modifies verb
      ensures Valid() && verb[ndx] == LogCaches.ByteFor(Eval(spec, tag))
      ensures verbose == if old(verb[ndx]) == 0 then Eval(spec, tag) else verb[ndx] - 1
      ensures LogCaches.AllCacheable(spec) ==> verbose == Eval(spec, tag)
    {
      hide Eval;
      if LogCaches.AllCacheable(spec) {
        LookUpCacheable();
      }
      verbose := verb[ndx];
      if verbose != 0 {
        verbose := verbose - 1;
      } else {
        verbose := EvalSpec(spec, tag);
        verb[ndx] := (verbose % 256 + 1) % 256;
      }
    }

    /** The part of z_log_enabled_len that uses the thread's own table. */
    method FromHash(c: nat, tag: string) returns (verbose: int)
      requires Valid() && c < |caches|
      modifies caches[c]
      ensures Valid() && verbose == Eval(spec, tag)
      ensures !caches[c].emptyHash && caches[c].used == old(caches[c].used)
      ensures caches[c].tagHash == (if old(caches[c].emptyHash) then map[] else old(caches[c].tagHash))[tag := verbose + 1]
    {
      hide Eval;
      var lc := caches[c];
      if lc.emptyHash {
        lc.tagHash := map[];
        lc.emptyHash := false;
      }
      verbose := if tag in lc.tagHash then lc.tagHash[tag] else 0;
      if verbose == 0 {
        verbose := EvalSpec(spec, tag);
        lc.tagHash := lc.tagHash[tag := verbose + 1];
      } else {
        verbose := verbose - 1;
      }
    }

    lemma LookUpCacheable()
      requires Valid() && LogCaches.AllCacheable(spec)
      ensures forall i :: 0 <= i < |tags| ==> 0 <= Eval(spec, tags[i]) <= 255
    {
      forall i | 0 <= i < |tags|
        ensures 0 <= Eval(spec, tags[i]) <= 255
      {
        LogCaches.EvalCacheable(spec.items, tags[i], spec.level);
      }
    }
  }
}
