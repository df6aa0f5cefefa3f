/** The packet buffer of src/packetbuf.c on its memory: the C functions as methods. */
module PacketBuffer {
  import opened Octets
  import opened PacketBuf
  import opened Sequences
  import opened Wrappers

  class ZPktBuf {
    const host: Endian      // G_HOST_ENDIAN
    var data: array<int>    // `allocated` is its length
    var length: nat
    var pos: nat
    var borrowed: bool      // Z_PB_BORROWED

    ghost function State(): PktBuf
      reads this, data
    {
      PktBuf(data[..], length, pos)
    }

    ghost predicate Valid()
      reads this
    {
      pos <= length <= data.Length
    }

    /** z_pktbuf_new. */
    constructor (host: Endian)
      ensures Valid() && State() == NewBuf && !borrowed && this.host == host && fresh(data)
    {
      this.host := host;
      data := new int[0];
      length, pos, borrowed := 0, 0, false;
    }

    /** z_pktbuf_resize; borrowed memory is not to be grown. */
    method Resize(size: nat)
      requires borrowed ==> size <= data.Length
      modifies this`data, this`length, this`pos
      ensures State() == PacketBuf.Resize(old(State()), size)
      ensures length == (if old(length) < size then old(length) else size) && pos == (if old(pos) < size then old(pos) else size)
      ensures data.Length == (if size < old(data.Length) then old(data.Length) else size) && old(data[..]) <= data[..]
      ensures data == old(data) || fresh(data)
    {
      if size > data.Length {
        var larger := new int[size](_ => 0);
        forall i | 0 <= i < data.Length {
          larger[i] := data[i];
        }
        assert larger[..] == data[..] + Zeros(size - data.Length);
        data := larger;
      }
      if length > size {
        length := size;
      }
      if pos > size {
        pos := size;
      }
    }

    /** z_pktbuf_set_available. */
    method SetAvailable(size: nat)
      requires Valid() && (borrowed ==> pos + size <= data.Length)
      modifies this`data, this`length, this`pos
      ensures Valid() && State() == PacketBuf.SetAvailable(old(State()), size)
      ensures pos == old(pos) && pos + size <= length
      ensures data == old(data) || fresh(data)
    {
      if length >= pos + size {
        return;
      }
      ghost var target := pos + size;
      length := pos + size;
      Resize(pos + size);
      assert data.Length == |State().data| >= target;
    }

    /** z_pktbuf_seek. */
    method Seek(whence: Whence, offset: int) returns (ok: bool)
      requires Valid()
      modifies this`pos
      ensures Valid() && ok == PacketBuf.Seek(old(State()), whence, offset).Some?
      ensures State() == if ok then PacketBuf.Seek(old(State()), whence, offset).value else old(State())
    {
      match whence {
        case Cur =>
          if pos + offset > length || pos + offset < 0 {
            return false;
          }
          pos := pos + offset;
        case Set =>
          if offset > length || offset < 0 {
            return false;
          }
          pos := offset;
        case End =>
          if offset > 0 || length < -offset {
            return false;
          }
          pos := length + offset;
      }
      return true;
    }

    /** Bytes are stored from index `at` on. */
    method Store(at: nat, s: seq<int>)
      requires Valid() && at + |s| <= length
      modifies data
      ensures data[..] == old(data[..at]) + s + old(data[at + |s|..])
    {
      forall i | 0 <= i < |s| {
        data[at + i] := s[i];
      }
    }

    /** Room is made, and bytes are stored at the position. */
    method PutBytes(s: seq<int>)
      requires Valid() && (borrowed ==> pos + |s| <= data.Length)
      modifies this`data, this`length, this`pos, data
      ensures Valid() && State() == Put(old(State()), s)
      ensures data == old(data) || fresh(data)
    {
      SetAvailable(|s|);
      Store(pos, s);
      pos := pos + |s|;
    }

    /** z_pktbuf_put_u8, _u16, _u32 and _u64. */
    method PutScalar(width: nat, e: Endian, d: nat)
      requires Valid() && Width(width) && d < Pow256(width)
      requires borrowed ==> pos + width <= data.Length
      modifies this`data, this`length, this`pos, data
      ensures Valid() && State() == PutField(host, old(State()), Scalar(width, e, d))
      ensures data == old(data) || fresh(data)
    {
      hide Stored, Layout, Swap, Pow256, Put;
      PutBytes(Stored(host, e, d, width));
    }

    /** z_pktbuf_get_u8, _u16, _u32 and _u64. */
    method GetScalar(width: nat, e: Endian) returns (ok: bool, res: int)
      requires Valid() && Sound(State())
      modifies this`pos
      ensures Valid() && Sound(State())
      ensures var got := GetField(host, old(State()), ScalarOf(width, e));
        ok == got.Some? && (ok ==> One(res) == got.value.0 && State() == got.value.1) && (!ok ==> State() == old(State()))
    {
      hide Loaded, Pow256;
      if length - pos < width {
        return false, 0;
      }
      PartBytes(data[..], pos, pos + width);
      assert data[pos..pos + width] == data[..][pos..pos + width];
      res := Loaded(host, e, data[pos..pos + width]);
      pos := pos + width;
      return true, res;
    }

    /** z_pktbuf_put_boolean. */
    method PutBoolean(flag: bool)
      requires Valid() && (borrowed ==> pos + 1 <= data.Length)
      modifies this`data, this`length, this`pos, data
      ensures Valid() && State() == PutField(host, old(State()), Boolean(flag))
      ensures pos == old(pos) + 1 && data[old(pos)] == if flag then 1 else 0
      ensures data == old(data) || fresh(data)
    {
      hide Put;
      PutOverwrites(State(), [if flag then 1 else 0]);
      PutBytes([if flag then 1 else 0]);
      assert data[..][old(pos)..pos][0] == data[old(pos)];
    }

    /** z_pktbuf_get_boolean: any byte but zero is true. */
    method GetBoolean() returns (ok: bool, flag: bool)
      requires Valid() && Sound(State())
      modifies this`pos
      ensures Valid() && Sound(State())
      ensures ok == (old(pos) + 1 <= length) && (ok ==> flag == (data[old(pos)] != 0))
      ensures var got := GetField(host, old(State()), BooleanOf);
        ok == got.Some? && (ok ==> Truth(flag) == got.value.0 && State() == got.value.1) && (!ok ==> State() == old(State()))
    {
      if length - pos < 1 {
        return false, false;
      }
      flag := data[pos] != 0;
      pos := pos + 1;
      return true, flag;
    }

    /** z_pktbuf_get_boolean16: any two bytes but zeros are true, in whatever order. */
    method GetBoolean16() returns (ok: bool, flag: bool)
      requires Valid() && Sound(State())
      modifies this`pos
      ensures Valid() && ok == (old(pos) + 2 <= length)
      ensures State() == if ok then old(State()).(pos := old(pos) + 2) else old(State())
      ensures ok ==> (flag <==> data[old(pos)] != 0 || data[old(pos) + 1] != 0)
    {
      if length - pos < 2 {
        return false, false;
      }
      var s := data[pos..pos + 2];
      assert s == [data[pos], data[pos + 1]];
      TwoBytes(data[pos], data[pos + 1]);
      flag := Number(host, s) != 0;
      pos := pos + 2;
      return true, flag;
    }

    /** z_pktbuf_put_u8s, _u16s, _u32s and _u64s. */
    method PutArray(width: nat, e: Endian, res: seq<nat>)
      requires Valid() && Width(width)
      requires borrowed ==> pos + |res| * width <= data.Length
      modifies this`data, this`length, this`pos, data
      ensures Valid() && State() == PutField(host, old(State()), Array(width, e, res))
      ensures data == old(data) || fresh(data)
    {
      hide AllStored, Stored, PutField, PacketBuf.SetAvailable;
      var n := |res| * width;
      ghost var before := State();
      SetAvailable(n);
      StoreArray(width, e, res, n);
      pos := pos + n;
      PutsArray(host, before, width, e, res, n, State());
    }

    /** Copied, or swapped one by one. */
    method StoreArray(width: nat, e: Endian, res: seq<nat>, ghost n: nat)
      requires Valid() && n == |res| * width && pos + n <= length
      modifies data
      ensures data[..] == old(data[..pos]) + AllStored(host, e, res, width) + old(data[pos + n..])
    {
      hide AllStored;
      if e == host {
        Store(pos, AllStored(host, host, res, width));
      } else {
        StoreSwapped(width, e, res, n);
      }
    }

    /** One more number, behind those that are `done`. */
    method StoreNext(ghost before: seq<int>, i: nat, ghost done: seq<int>, s: seq<int>)
      requires Valid() && |done| == i && pos + i + |s| <= length && |before| == data.Length
      requires data[..] == Filled(before, pos, done)
      modifies data
      ensures data[..] == Filled(before, pos, done + s)
    {
      Store(pos + i, s);
      StoredNext(before, pos, done, s, data[..]);
    }

    /** The loop over the numbers, which take up `n` bytes. */
    method StoreSwapped(width: nat, e: Endian, res: seq<nat>, ghost n: nat)
      requires Valid() && n == |res| * width && pos + n <= length
      modifies data
      ensures data[..] == old(data[..pos]) + AllStored(host, e, res, width) + old(data[pos + n..])
    {
      hide AllStored, Stored;
      ghost var before := data[..];
      var i: nat := 0;
      NothingStored(host, e, width);
      assert res[..0] == [];
      assert before == Filled(before, pos, []);
      for k := 0 to |res|
        invariant i == k * width && i <= n
        invariant data[..] == Filled(before, pos, AllStored(host, e, res[..k], width))
      {
        hide *;
        Steps(k, |res|, width);
        StoreNext(before, i, AllStored(host, e, res[..k], width), Stored(host, e, res[k], width));
        assert res[..k + 1] == res[..k] + [res[k]];
        StoredAdds(host, e, res[..k], res[k], width);
        i := i + width;
      }
      assert res[..|res|] == res;
      assert before[..pos] == old(data[..pos]) && before[pos + n..] == old(data[pos + n..]);
    }

    /** z_pktbuf_get_u8s, _u16s, _u32s and _u64s. */
    method GetArray(width: nat, e: Endian, n: nat) returns (ok: bool, res: seq<int>)
      requires Valid() && Sound(State()) && Width(width)
      modifies this`pos
      ensures Valid() && Sound(State())
      ensures var got := GetField(host, old(State()), ArrayOf(width, e, n));
        ok == got.Some? && (ok ==> Many(res) == got.value.0 && State() == got.value.1) && (!ok ==> State() == old(State()))
    {
      hide Loaded, AllLoaded;
      res := [];
      if length - pos < n * width {
        return false, [];
      }
      PartBytes(data[..], pos, pos + n * width);
      assert data[pos..pos + n * width] == data[..][pos..pos + n * width];
      res := LoadAll(width, e, data[pos..pos + n * width], n);
      pos := pos + n * width;
      return true, res;
    }

    /** The loop over the numbers. */
    method LoadAll(width: nat, e: Endian, s: seq<int>, n: nat) returns (res: seq<int>)
      requires Bytes(s) && Width(width) && |s| == n * width
      ensures res == AllLoaded(host, e, s, width)
    {
      res := [];
      var i: nat := 0;
      LoadsFromStart(host, e, s, width);
      for k := 0 to n
        invariant i == k * width && i <= |s|
        invariant Loading(host, e, s, width, i, res)
      {
        hide *;
        Steps(k, n, width);
        LoadNext(host, e, s, width, i, res);
        res := res + [Loaded(host, e, s[i..i + width])];
        i := i + width;
      }
      assert s[i..] == [] && res + [] == res;
    }
  }

  /** What has been loaded and what the rest holds are all there is. */
  ghost predicate Loading(host: Endian, e: Endian, s: seq<int>, width: nat, i: nat, res: seq<int>) {
    && Bytes(s) && 0 < width && i <= |s| && Bytes(s[i..])
    && res + AllLoaded(host, e, s[i..], width) == AllLoaded(host, e, s, width)
  }

  lemma LoadsFromStart(host: Endian, e: Endian, s: seq<int>, width: nat)
    requires Bytes(s) && 0 < width
    ensures Loading(host, e, s, width, 0, [])
  {
    hide AllLoaded;
    assert s[0..] == s;
    assert [] + AllLoaded(host, e, s, width) == AllLoaded(host, e, s, width);
  }

  lemma LoadNext(host: Endian, e: Endian, s: seq<int>, width: nat, i: nat, res: seq<int>)
    requires Loading(host, e, s, width, i, res) && i + width <= |s|
    ensures Bytes(s[i..i + width])
    ensures Loading(host, e, s, width, i + width, res + [Loaded(host, e, s[i..i + width])])
  {
    hide AllLoaded, Loaded;
    var now, later := s[i..i + width], s[i + width..];
    PartBytes(s, i, i + width);
    PartBytes(s, i + width, |s|);
    assert later == s[i + width..|s|];
    assert s[i..] == now + later;
    LoadFirst(host, e, now, later);
    Associate(res, [Loaded(host, e, now)], AllLoaded(host, e, later, width));
  }

  lemma Steps(k: nat, n: nat, width: nat)
    requires k < n
    ensures k * width + width == (k + 1) * width <= n * width
  {
    assert (n - k - 1) * width >= 0;
    assert n * width == (k + 1) * width + (n - k - 1) * width;
  }

  lemma NothingStored(host: Endian, e: Endian, width: nat)
    ensures AllStored(host, e, [], width) == []
  {}

  lemma {:induction false} StoredAdds(host: Endian, e: Endian, vs: seq<nat>, v: nat, width: nat)
    ensures AllStored(host, e, vs + [v], width) == AllStored(host, e, vs, width) + Stored(host, e, v, width)
  {
    hide Stored;
    if vs == [] {
      assert vs + [v] == [v] && [v][1..] == [];
    } else {
      assert (vs + [v])[1..] == vs[1..] + [v];
      StoredAdds(host, e, vs[1..], v, width);
      Associate(Stored(host, e, vs[0], width), AllStored(host, e, vs[1..], width), Stored(host, e, v, width));
    }
  }

  /** Room is made, the numbers are laid at the position, and the position moves on: the array is put. */
  lemma PutsArray(host: Endian, b: PktBuf, width: nat, e: Endian, res: seq<nat>, n: nat, v: PktBuf)
    requires WellFormed(b) && n == |res| * width
    requires var c := PacketBuf.SetAvailable(b, n);
      && b.pos + n <= |c.data|
      && v == PktBuf(c.data[..b.pos] + AllStored(host, e, res, width) + c.data[b.pos + n..], c.length, b.pos + n)
    ensures v == PutField(host, b, Array(width, e, res))
  {
    hide AllStored, PacketBuf.SetAvailable;
  }

  /** Memory with something stored at a position. */
  function Filled(before: seq<int>, pos: nat, done: seq<int>): seq<int>
    requires pos + |done| <= |before|
  {
    before[..pos] + done + before[pos + |done|..]
  }

  lemma StoredNext(before: seq<int>, pos: nat, done: seq<int>, s: seq<int>, after: seq<int>)
    requires pos + |done| + |s| <= |before|
    requires var m, at := Filled(before, pos, done), pos + |done|;
      after == m[..at] + s + m[at + |s|..]
    ensures after == Filled(before, pos, done + s)
  {
    var m, at := Filled(before, pos, done), pos + |done|;
    assert m[..at] == before[..pos] + done;
    assert m[at + |s|..] == before[at + |s|..];
    assert before[..pos] + done + s == before[..pos] + (done + s);
  }

  lemma TwoBytes(a: int, b: int)
    requires 0 <= a < 256 && 0 <= b < 256
    ensures Value([a, b]) == a + 256 * b && Value(Reverse([a, b])) == b + 256 * a
  {
    OneByte(a);
    OneByte(b);
    assert [a, b][1..] == [b] && [b, a][1..] == [a];
    assert Reverse([a, b]) == Reverse([b]) + [a] == [b, a];
  }

  lemma OneByte(a: int)
    ensures Value([a]) == a && Reverse([a]) == [a]
  {
    assert [a][1..] == [];
  }
}
