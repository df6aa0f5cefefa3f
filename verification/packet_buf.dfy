/**
 * The packet buffer of src/packetbuf.c: numbers and arrays of numbers are written into bytes and read
 * back, each with its own byte order.
 */
module PacketBuf {
  import opened Arithmetic
  import opened Octets
  import opened Sequences
  import opened Wrappers

  datatype Endian = Little | Big

  /** `data` is all the memory there is; `length` of it is in use. */
  datatype PktBuf = PktBuf(data: seq<int>, length: nat, pos: nat)

  ghost predicate WellFormed(b: PktBuf) {
    b.pos <= b.length <= |b.data|
  }

  const NewBuf := PktBuf([], 0, 0)

  // ----- the buffer -----

  /** z_pktbuf_resize, on a buffer that may be reallocated; what new memory holds is not specified in C. */
  function Resize(b: PktBuf, size: nat): PktBuf {
    PktBuf(
      if size > |b.data| then b.data + Zeros(size - |b.data|) else b.data,
      if b.length > size then size else b.length,
      if b.pos > size then size else b.pos)
  }

  /** Memory only grows, and what is in it stays; length and position are clipped to the size. */
  lemma ResizeClips(b: PktBuf, size: nat)
    requires WellFormed(b)
    ensures var r := Resize(b, size);
      && WellFormed(r) && b.data <= r.data && |r.data| == (if size < |b.data| then |b.data| else size)
      && r.length <= size && (r.length == size || r.length == b.length) && r.length <= b.length
      && r.pos <= size && (r.pos == size || r.pos == b.pos) && r.pos <= b.pos
  {}

  /** z_pktbuf_set_available. */
  function SetAvailable(b: PktBuf, size: nat): PktBuf {
    if b.length >= b.pos + size then b else Resize(b.(length := b.pos + size), b.pos + size)
  }

  /** Bytes go to the current position. */
  function Put(b: PktBuf, bytes: seq<int>): (r: PktBuf)
    requires WellFormed(b)
    ensures WellFormed(r)
  {
    var c := SetAvailable(b, |bytes|);
    PktBuf(c.data[..b.pos] + bytes + c.data[b.pos + |bytes|..], c.length, b.pos + |bytes|)
  }

  /** Bytes are read at the current position, if there are so many. */
  function Get(b: PktBuf, n: nat): (r: Option<(seq<int>, PktBuf)>)
    requires WellFormed(b)
    ensures r.Some? ==> |r.value.0| == n && WellFormed(r.value.1)
    ensures r.Some? <==> b.pos + n <= b.length
  {
    if b.length - b.pos < n then None
    else Some((b.data[b.pos..b.pos + n], b.(pos := b.pos + n)))
  }

  datatype Whence = Cur | Set | End

  /** z_pktbuf_seek. */
  function Seek(b: PktBuf, whence: Whence, offset: int): (r: Option<PktBuf>)
    requires WellFormed(b)
    ensures r.Some? ==> WellFormed(r.value)
  {
    match whence
    case Cur => if b.pos + offset > b.length || b.pos + offset < 0 then None else Some(b.(pos := b.pos + offset))
    case Set => if offset > b.length || offset < 0 then None else Some(b.(pos := offset))
    case End => if offset > 0 || b.length < -offset then None else Some(b.(pos := b.length + offset))
  }

  /** A seek succeeds exactly if it ends inside the bytes in use, and does nothing else. */
  lemma SeekIsExact(b: PktBuf, whence: Whence, offset: int)
    requires WellFormed(b)
    ensures var target := offset + match whence case Cur => b.pos case Set => 0 case End => b.length;
      && (Seek(b, whence, offset).Some? <==> 0 <= target <= b.length)
      && (Seek(b, whence, offset).Some? ==> Seek(b, whence, offset).value == b.(pos := target))
  {}

  // ----- numbers -----

  predicate Width(w: nat) {
    w == 1 || w == 2 || w == 4 || w == 8
  }

  function Pow256(w: nat): nat {
    if w == 0 then 1 else 256 * Pow256(w - 1)
  }

  /** The bytes of a number, lowest first. */
  function Digits(v: nat, w: nat): (s: seq<int>)
    ensures |s| == w
  {
    if w == 0 then [] else [v % 256] + Digits(v / 256, w - 1)
  }

  function Value(s: seq<int>): int {
    if s == [] then 0 else s[0] + 256 * Value(s[1..])
  }

  function Reverse(s: seq<int>): (r: seq<int>)
    ensures |r| == |s|
  {
    if s == [] then [] else Reverse(s[1..]) + [s[0]]
  }

  /** How a number is laid out in a byte order. */
  function Layout(e: Endian, v: nat, w: nat): (s: seq<int>)
    ensures |s| == w
  {
    if e.Little? then Digits(v, w) else Reverse(Digits(v, w))
  }

  function Number(e: Endian, s: seq<int>): int {
    if e.Little? then Value(s) else Value(Reverse(s))
  }

  /** GUINT16_SWAP_LE_BE and its kin: the bytes in the other order. */
  function Swap(v: nat, w: nat): int {
    Value(Reverse(Digits(v, w)))
  }

  /** What the C code stores: the number as it is, or swapped, in the byte order of the machine. */
  function Stored(host: Endian, e: Endian, v: nat, w: nat): (s: seq<int>)
    ensures |s| == w
  {
    if e == host then Layout(host, v, w)
    else
      SwapBound(v, w);
      Layout(host, Swap(v, w), w)
  }

  /** What the C code reads: the machine's number at these bytes, or that swapped. */
  function Loaded(host: Endian, e: Endian, s: seq<int>): int
    requires Bytes(s)
  {
    NumberBound(host, s);
    if e == host then Number(host, s) else Swap(Number(host, s), |s|)
  }

  lemma {:induction false} ValueBound(s: seq<int>)
    requires Bytes(s)
    ensures 0 <= Value(s) < Pow256(|s|)
  {
    if s != [] {
      assert Bytes(s[1..]) by {
        assert forall i :: 0 <= i < |s[1..]| ==> s[1..][i] == s[i + 1];
      }
      ValueBound(s[1..]);
    }
  }

  lemma {:induction false} ReverseBytes(s: seq<int>)
    requires Bytes(s)
    ensures Bytes(Reverse(s))
  {
    if s != [] {
      assert forall i :: 0 <= i < |s[1..]| ==> s[1..][i] == s[i + 1];
      ReverseBytes(s[1..]);
    }
  }

  lemma {:induction false} DigitsBytes(v: nat, w: nat)
    ensures Bytes(Digits(v, w))
  {
    if w > 0 {
      DigitsBytes(v / 256, w - 1);
    }
  }

  lemma SwapBound(v: nat, w: nat)
    ensures 0 <= Swap(v, w) < Pow256(w)
  {
    DigitsBytes(v, w);
    ReverseBytes(Digits(v, w));
    ValueBound(Reverse(Digits(v, w)));
  }

  lemma NumberBound(e: Endian, s: seq<int>)
    requires Bytes(s)
    ensures 0 <= Number(e, s) < Pow256(|s|)
  {
    ValueBound(s);
    ReverseBytes(s);
    ValueBound(Reverse(s));
  }

  lemma {:induction false} ValueOfDigits(v: nat, w: nat)
    requires v < Pow256(w)
    ensures Value(Digits(v, w)) == v
    decreases w
  {
    if w > 0 {
      ValueOfDigits(v / 256, w - 1);
    }
  }

  lemma {:induction false} DigitsOfValue(s: seq<int>)
    requires Bytes(s)
    ensures 0 <= Value(s) && Digits(Value(s), |s|) == s
  {
    if s != [] {
      assert Bytes(s[1..]) by {
        assert forall i :: 0 <= i < |s[1..]| ==> s[1..][i] == s[i + 1];
      }
      ValueBound(s);
      ValueBound(s[1..]);
      DigitsOfValue(s[1..]);
      assert Value(s) % 256 == s[0] && Value(s) / 256 == Value(s[1..]);
      assert s == [s[0]] + s[1..];
    }
  }

  lemma {:induction false} ReverseAdds(s: seq<int>, t: seq<int>)
    ensures Reverse(s + t) == Reverse(t) + Reverse(s)
  {
    if s == [] {
      assert s + t == t && Reverse(t) + [] == Reverse(t);
    } else {
      assert (s + t)[1..] == s[1..] + t;
      ReverseAdds(s[1..], t);
      assert Reverse(t) + Reverse(s[1..]) + [s[0]] == Reverse(t) + (Reverse(s[1..]) + [s[0]]);
    }
  }

  lemma {:induction false} ReverseTwice(s: seq<int>)
    ensures Reverse(Reverse(s)) == s
  {
    if s != [] {
      ReverseAdds(Reverse(s[1..]), [s[0]]);
      ReverseTwice(s[1..]);
      assert Reverse([s[0]]) == [s[0]];
      assert s == [s[0]] + s[1..];
    }
  }

  /** Whatever the machine's byte order, a number is stored in the byte order asked for. */
  lemma StoredAsAsked(host: Endian, e: Endian, v: nat, w: nat)
    requires v < Pow256(w)
    ensures Stored(host, e, v, w) == Layout(e, v, w)
  {
    if e != host {
      var s := Digits(v, w);
      DigitsBytes(v, w);
      ReverseBytes(s);
      DigitsOfValue(Reverse(s));
      ReverseTwice(s);
    }
  }

  /** And what was stored is loaded again, even by a machine of the other byte order. */
  lemma LoadedIsStored(host: Endian, other: Endian, e: Endian, v: nat, w: nat)
    requires v < Pow256(w)
    ensures Bytes(Stored(host, e, v, w)) && Loaded(other, e, Stored(host, e, v, w)) == v
  {
    StoredAsAsked(host, e, v, w);
    var s := Digits(v, w);
    DigitsBytes(v, w);
    ReverseBytes(s);
    ReverseTwice(s);
    ValueOfDigits(v, w);
    hide Stored;
    if e != other {
      var n := Number(other, Layout(e, v, w));
      assert n == Value(Reverse(s));
      DigitsOfValue(Reverse(s));
      assert Swap(n, w) == v;
    }
  }

  lemma {:induction false} DigitAt(v: nat, w: nat, k: nat)
    requires k < w
    ensures 0 < Pow256(k) && Digits(v, w)[k] == v / Pow256(k) % 256
    decreases k
  {
    PowersArePositive(k);
    if k > 0 {
      DigitAt(v / 256, w - 1, k - 1);
      hide Digits;
      DividedTwice(v, Pow256(k - 1));
    }
  }

  lemma {:induction false} PowersArePositive(k: nat)
    ensures 0 < Pow256(k)
  {
    if k > 0 {
      PowersArePositive(k - 1);
    }
  }

  lemma DividedTwice(v: nat, p: nat)
    requires 0 < p
    ensures v / 256 / p == v / (256 * p)
  {
    var q, r := v / 256 / p, v / 256 % p;
    assert v / 256 == q * p + r;
    assert v == 256 * (q * p) + (256 * r + v % 256);
    assert q * (256 * p) == 256 * (q * p) && (q + 1) * (256 * p) == 256 * (q * p) + 256 * p;
    hide *;
    DivBetween(v, 256 * p, q, q + 1);
  }

  lemma {:induction false} ReversedAt(s: seq<int>, k: nat)
    requires k < |s|
    ensures Reverse(s)[k] == s[|s| - 1 - k]
  {
    if k < |s| - 1 {
      ReversedAt(s[1..], k);
    }
  }

  /** Which byte goes where: the lowest first in little endian order, the highest first in big endian order. */
  lemma StoredByteIs(host: Endian, v: nat, w: nat, k: nat)
    requires v < Pow256(w) && k < w
    ensures 0 < Pow256(k)
    ensures Stored(host, Little, v, w)[k] == v / Pow256(k) % 256
    ensures Stored(host, Big, v, w)[w - 1 - k] == v / Pow256(k) % 256
  {
    hide Stored, Pow256;
    StoredAsAsked(host, Little, v, w);
    StoredAsAsked(host, Big, v, w);
    DigitAt(v, w, k);
    ReversedAt(Digits(v, w), w - 1 - k);
    hide *;
  }

  /** The same for two bytes, written out. */
  lemma TwoBytesAre(host: Endian, high: nat, low: nat)
    requires high < 256 && low < 256
    ensures Stored(host, Big, 256 * high + low, 2) == [high, low]
    ensures Stored(host, Little, 256 * high + low, 2) == [low, high]
  {
    var v := 256 * high + low;
    assert Pow256(1) == 256 && Pow256(2) == 65536;
    hide Stored;
    StoredAsAsked(host, Little, v, 2);
    StoredAsAsked(host, Big, v, 2);
    assert v % 256 == low && v / 256 == high;
    assert Digits(v, 2) == [low] + Digits(high, 1) == [low, high];
    assert Reverse([low, high]) == [high, low] by {
      assert [low, high][1..] == [high] && [high][1..] == [];
    }
  }

  // ----- fields -----

  datatype Field =
    | Scalar(width: nat, order: Endian, value: nat)          // z_pktbuf_put_u8, _u16, _u32, _u64
    | Array(width: nat, order: Endian, values: seq<nat>)     // z_pktbuf_put_u8s, ...
    | Boolean(flag: bool)                                    // z_pktbuf_put_boolean

  /** What a reader has to know of a field. */
  datatype Shape = ScalarOf(width: nat, order: Endian) | ArrayOf(width: nat, order: Endian, count: nat) | BooleanOf

  function ShapeOf(f: Field): Shape {
    match f
    case Scalar(w, e, _) => ScalarOf(w, e)
    case Array(w, e, vs) => ArrayOf(w, e, |vs|)
    case Boolean(_) => BooleanOf
  }

  ghost predicate Fits(f: Field) {
    match f
    case Scalar(w, _, v) => Width(w) && v < Pow256(w)
    case Array(w, _, vs) => Width(w) && forall i :: 0 <= i < |vs| ==> vs[i] < Pow256(w)
    case Boolean(_) => true
  }

  function AllStored(host: Endian, e: Endian, vs: seq<nat>, w: nat): (s: seq<int>)
    ensures |s| == |vs| * w
  {
    if vs == [] then [] else
      assert |vs| * w == w + (|vs| - 1) * w;
      Stored(host, e, vs[0], w) + AllStored(host, e, vs[1..], w)
  }

  /** The bytes that a field becomes. */
  function Written(host: Endian, f: Field): seq<int> {
    match f
    case Scalar(w, e, v) => Stored(host, e, v, w)
    case Array(w, e, vs) => AllStored(host, e, vs, w)
    case Boolean(flag) => [if flag then 1 else 0]
  }

  function PutField(host: Endian, b: PktBuf, f: Field): (r: PktBuf)
    requires WellFormed(b)
    ensures WellFormed(r)
  {
    Put(b, Written(host, f))
  }

  /** Memory of which every byte is a byte. */
  ghost predicate Sound(b: PktBuf) {
    WellFormed(b) && Bytes(b.data)
  }

  lemma PartBytes(s: seq<int>, i: nat, k: nat)
    requires Bytes(s) && i <= k <= |s|
    ensures Bytes(s[i..k])
  {}

  ghost function AllLoaded(host: Endian, e: Endian, s: seq<int>, w: nat): seq<int>
    requires Bytes(s) && 0 < w
    decreases |s|
  {
    if |s| < w then [] else
      PartBytes(s, 0, w);
      PartBytes(s, w, |s|);
      [Loaded(host, e, s[..w])] + AllLoaded(host, e, s[w..], w)
  }

  function Size(shape: Shape): nat {
    match shape
    case ScalarOf(w, _) => w
    case ArrayOf(w, _, n) => n * w
    case BooleanOf => 1
  }

  datatype Content = One(n: int) | Many(ns: seq<int>) | Truth(flag: bool)

  ghost function ContentOf(f: Field): Content {
    match f
    case Scalar(_, _, v) => One(v)
    case Array(_, _, vs) => Many(vs)
    case Boolean(flag) => Truth(flag)
  }

  /** What the bytes of a field mean. */
  ghost function Meaning(host: Endian, shape: Shape, s: seq<int>): Content
    requires Bytes(s) && |s| == Size(shape) && (shape.ArrayOf? ==> 0 < shape.width)
  {
    match shape
    case ScalarOf(_, e) => One(Loaded(host, e, s))
    case ArrayOf(w, e, _) => Many(AllLoaded(host, e, s, w))
    case BooleanOf => Truth(s[0] != 0)
  }

  ghost function GetField(host: Endian, b: PktBuf, shape: Shape): (r: Option<(Content, PktBuf)>)
    requires Sound(b) && (shape.ArrayOf? ==> 0 < shape.width)
    ensures r.Some? ==> Sound(r.value.1)
  {
    var got := Get(b, Size(shape));
    if got.None? then None
    else
      PartBytes(b.data, b.pos, b.pos + Size(shape));
      Some((Meaning(host, shape, got.value.0), got.value.1))
  }

  // ----- reading back -----

  lemma LoadFirst(host: Endian, e: Endian, s: seq<int>, rest: seq<int>)
    requires Bytes(s) && Bytes(rest) && s != []
    ensures Bytes(s + rest)
    ensures AllLoaded(host, e, s + rest, |s|) == [Loaded(host, e, s)] + AllLoaded(host, e, rest, |s|)
  {
    assert (s + rest)[..|s|] == s && (s + rest)[|s|..] == rest;
    hide Loaded;
  }

  lemma {:induction false} AllLoadedIsAllStored(host: Endian, other: Endian, e: Endian, vs: seq<nat>, w: nat)
    requires 0 < w && forall i :: 0 <= i < |vs| ==> vs[i] < Pow256(w)
    ensures Bytes(AllStored(host, e, vs, w)) && AllLoaded(other, e, AllStored(host, e, vs, w), w) == vs
  {
    if vs != [] {
      var s, rest := Stored(host, e, vs[0], w), AllStored(host, e, vs[1..], w);
      assert AllStored(host, e, vs, w) == s + rest;
      LoadedIsStored(host, other, e, vs[0], w);
      AllLoadedIsAllStored(host, other, e, vs[1..], w);
      hide Stored, Loaded, Pow256, AllLoaded, AllStored;
      LoadFirst(other, e, s, rest);
      assert vs == [vs[0]] + vs[1..];
    }
  }

  /** The bytes of a field mean the field. */
  lemma WrittenMeans(host: Endian, other: Endian, f: Field)
    requires Fits(f)
    ensures var s := Written(host, f);
      && Bytes(s) && |s| == Size(ShapeOf(f)) && (f.Array? ==> 0 < f.width)
      && Meaning(other, ShapeOf(f), s) == ContentOf(f)
  {
    match f {
      case Scalar(w, e, v) => LoadedIsStored(host, other, e, v, w);
      case Array(w, e, vs) => AllLoadedIsAllStored(host, other, e, vs, w);
      case Boolean(_) =>
    }
    hide Stored, AllStored, Loaded, AllLoaded;
  }

  function PutAll(host: Endian, b: PktBuf, fs: seq<Field>): (r: PktBuf)
    requires WellFormed(b)
    ensures WellFormed(r)
    decreases |fs|
  {
    if fs == [] then b else PutAll(host, PutField(host, b, fs[0]), fs[1..])
  }

  ghost function GetAll(host: Endian, b: PktBuf, shapes: seq<Shape>): (r: Option<(seq<Content>, PktBuf)>)
    requires Sound(b) && HaveWidth(shapes)
    ensures r.Some? ==> Sound(r.value.1)
    decreases |shapes|
  {
    if shapes == [] then Some(([], b))
    else
      var first := GetField(host, b, shapes[0]);
      if first.None? then None
      else
        var rest := GetAll(host, first.value.1, shapes[1..]);
        if rest.None? then None else Some(([first.value.0] + rest.value.0, rest.value.1))
  }

  function Shapes(fs: seq<Field>): (r: seq<Shape>)
    ensures |r| == |fs|
  {
    if fs == [] then [] else [ShapeOf(fs[0])] + Shapes(fs[1..])
  }

  ghost function Contents(fs: seq<Field>): seq<Content> {
    if fs == [] then [] else [ContentOf(fs[0])] + Contents(fs[1..])
  }

  function AllWritten(host: Endian, fs: seq<Field>): seq<int> {
    if fs == [] then [] else Written(host, fs[0]) + AllWritten(host, fs[1..])
  }

  ghost predicate AllFit(fs: seq<Field>) {
    forall i :: 0 <= i < |fs| ==> Fits(fs[i])
  }

  /** What a put does to the bytes in use: those at the position are replaced, and more come in use if need be. */
  lemma PutOverwrites(b: PktBuf, s: seq<int>)
    requires WellFormed(b)
    ensures var r := Put(b, s);
      && r.pos == b.pos + |s| && r.length == Max(b.length, b.pos + |s|)
      && |b.data| <= |r.data|
      && r.data[..b.pos] == b.data[..b.pos]
      && r.data[b.pos..r.pos] == s
      && r.data[r.pos..r.length] == if r.pos <= b.length then b.data[r.pos..b.length] else []
  {
    var c := SetAvailable(b, |s|);
    assert c.data[..b.pos] == b.data[..b.pos];
    Overlaid(c.data, b.pos, s);
    if b.pos + |s| <= b.length {
      assert c == b;
      assert forall i :: b.pos + |s| <= i < b.length ==> Put(b, s).data[i] == b.data[i];
    }
  }

  lemma Overlaid(d: seq<int>, pos: nat, s: seq<int>)
    requires pos + |s| <= |d|
    ensures var r := d[..pos] + s + d[pos + |s|..];
      && |r| == |d| && r[..pos] == d[..pos] && r[pos..pos + |s|] == s
      && forall i :: pos + |s| <= i < |d| ==> r[i] == d[i]
  {}

  lemma PutSound(b: PktBuf, s: seq<int>)
    requires Sound(b) && Bytes(s)
    ensures Sound(Put(b, s))
  {}

  lemma PutFieldWrites(host: Endian, b: PktBuf, f: Field)
    requires Sound(b) && Fits(f)
    ensures var c, s := PutField(host, b, f), Written(host, f);
      && Sound(c) && c.pos == b.pos + |s| && c.length == Max(b.length, c.pos)
      && c.data[..b.pos] == b.data[..b.pos] && c.data[b.pos..c.pos] == s
  {
    WrittenMeans(host, host, f);
    PutOverwrites(b, Written(host, f));
    PutSound(b, Written(host, f));
    hide Put, Written, Fits, Meaning;
  }

  lemma RestFits(fs: seq<Field>)
    requires AllFit(fs) && fs != []
    ensures Fits(fs[0]) && AllFit(fs[1..])
  {
    hide Fits;
    assert forall i :: 0 <= i < |fs[1..]| ==> fs[1..][i] == fs[i + 1];
  }

  /** Writing fields writes their bytes one after another. */
  lemma {:induction false} PutAllWrites(host: Endian, b: PktBuf, fs: seq<Field>)
    requires Sound(b) && AllFit(fs)
    ensures var r, s := PutAll(host, b, fs), AllWritten(host, fs);
      && Sound(r) && r.pos == b.pos + |s| && r.length == Max(b.length, r.pos)
      && r.data[..b.pos] == b.data[..b.pos]
      && r.data[b.pos..r.pos] == s
    decreases |fs|
  {
    if fs == [] {
      assert b.data[b.pos..b.pos] == [];
    } else {
      hide PutField, Written, Fits, AllFit, Bytes;
      RestFits(fs);
      PutFieldWrites(host, b, fs[0]);
      var c := PutField(host, b, fs[0]);
      PutAllWrites(host, c, fs[1..]);
      var r := PutAll(host, c, fs[1..]);
      Prefixes(r.data, c.data, b.data, b.pos, c.pos, r.pos, Written(host, fs[0]), AllWritten(host, fs[1..]));
    }
  }

  lemma Prefixes(r: seq<int>, c: seq<int>, b: seq<int>, i: nat, k: nat, n: nat, first: seq<int>, rest: seq<int>)
    requires i <= k <= n <= |r| && k <= |c| && i <= |b|
    requires r[..k] == c[..k] && c[..i] == b[..i] && c[i..k] == first && r[k..n] == rest
    ensures r[..i] == b[..i] && r[i..n] == first + rest
  {
    assert r[..i] == r[..k][..i] && c[..i] == c[..k][..i];
    assert r[i..k] == r[..k][i..] && c[i..k] == c[..k][i..];
    assert r[i..n] == r[i..k] + r[k..n];
  }

  ghost predicate HaveWidth(shapes: seq<Shape>) {
    forall i :: 0 <= i < |shapes| && shapes[i].ArrayOf? ==> 0 < shapes[i].width
  }

  /** The bytes are there to be read. */
  ghost predicate At(b: PktBuf, s: seq<int>) {
    b.pos + |s| <= b.length <= |b.data| && b.data[b.pos..b.pos + |s|] == s
  }

  lemma GetFieldReads(host: Endian, other: Endian, b: PktBuf, f: Field)
    requires Sound(b) && Fits(f) && At(b, Written(host, f))
    ensures f.Array? ==> 0 < f.width
    ensures GetField(other, b, ShapeOf(f)) == Some((ContentOf(f), b.(pos := b.pos + |Written(host, f)|)))
  {
    WrittenMeans(host, other, f);
    hide Written, Fits, Meaning, ContentOf;
  }

  lemma AtFirst(b: PktBuf, first: seq<int>, rest: seq<int>)
    requires Sound(b) && At(b, first + rest)
    ensures At(b, first) && Sound(b.(pos := b.pos + |first|)) && At(b.(pos := b.pos + |first|), rest)
  {
    Halves(b.data, b.pos, first, rest);
  }

  lemma RestShapes(fs: seq<Field>)
    requires fs != []
    ensures Shapes(fs)[0] == ShapeOf(fs[0]) && Shapes(fs)[1..] == Shapes(fs[1..])
    ensures HaveWidth(Shapes(fs)) ==> HaveWidth(Shapes(fs[1..]))
  {
    assert forall i :: 0 <= i < |fs[1..]| ==> Shapes(fs[1..])[i] == Shapes(fs)[i + 1];
  }

  /** Reading from `b` gives `xs` and ends at `end`. */
  ghost predicate Reads(host: Endian, b: PktBuf, shapes: seq<Shape>, xs: seq<Content>, end: nat) {
    Sound(b) && HaveWidth(shapes) && GetAll(host, b, shapes) == Some((xs, b.(pos := end)))
  }

  lemma ReadsStep(host: Endian, b: PktBuf, shapes: seq<Shape>, x: Content, mid: nat, xs: seq<Content>, end: nat)
    requires Sound(b) && shapes != [] && HaveWidth(shapes)
    requires GetField(host, b, shapes[0]) == Some((x, b.(pos := mid)))
    requires Reads(host, b.(pos := mid), shapes[1..], xs, end)
    ensures Reads(host, b, shapes, [x] + xs, end)
  {
    hide GetField, Sound;
  }

  lemma FirstField(host: Endian, fs: seq<Field>)
    requires fs != []
    ensures AllWritten(host, fs) == Written(host, fs[0]) + AllWritten(host, fs[1..])
    ensures Contents(fs) == [ContentOf(fs[0])] + Contents(fs[1..])
  {}

  lemma ReadsNothing(host: Endian, other: Endian, b: PktBuf)
    requires Sound(b)
    ensures Reads(other, b, Shapes([]), Contents([]), b.pos) && AllWritten(host, []) == []
  {}

  /** The bytes of these fields are there to be read. */
  ghost predicate FieldsAt(host: Endian, b: PktBuf, fs: seq<Field>) {
    Sound(b) && AllFit(fs) && HaveWidth(Shapes(fs)) && At(b, AllWritten(host, fs))
  }

  ghost predicate FieldsRead(host: Endian, other: Endian, b: PktBuf, fs: seq<Field>) {
    Reads(other, b, Shapes(fs), Contents(fs), b.pos + |AllWritten(host, fs)|)
  }

  lemma OnToTheRest(host: Endian, b: PktBuf, fs: seq<Field>)
    requires FieldsAt(host, b, fs) && fs != []
    ensures At(b, Written(host, fs[0])) && Fits(fs[0])
    ensures FieldsAt(host, b.(pos := b.pos + |Written(host, fs[0])|), fs[1..])
  {
    hide AllWritten, Written, At, AllFit, Fits, HaveWidth, Shapes, Sound;
    FirstField(host, fs);
    RestFits(fs);
    RestShapes(fs);
    AtFirst(b, Written(host, fs[0]), AllWritten(host, fs[1..]));
  }

  lemma FirstThenRest(host: Endian, other: Endian, b: PktBuf, fs: seq<Field>)
    requires FieldsAt(host, b, fs) && fs != []
    requires Fits(fs[0]) && At(b, Written(host, fs[0]))
    requires FieldsRead(host, other, b.(pos := b.pos + |Written(host, fs[0])|), fs[1..])
    ensures FieldsRead(host, other, b, fs)
  {
    hide AllWritten, Written, At, AllFit, Fits, HaveWidth, Shapes, Sound, Reads, GetField, Contents;
    FirstField(host, fs);
    RestShapes(fs);
    GetFieldReads(host, other, b, fs[0]);
    var mid := b.pos + |Written(host, fs[0])|;
    ReadsStep(other, b, Shapes(fs), ContentOf(fs[0]), mid, Contents(fs[1..]), mid + |AllWritten(host, fs[1..])|);
  }

  /** Where the bytes of fields are, the fields are read. */
  lemma {:induction false} GetAllReads(host: Endian, other: Endian, b: PktBuf, fs: seq<Field>)
    requires FieldsAt(host, b, fs)
    ensures FieldsRead(host, other, b, fs)
    decreases |fs|
  {
    if fs == [] {
      ReadsNothing(host, other, b);
    } else {
      hide *;
      OnToTheRest(host, b, fs);
      GetAllReads(host, other, b.(pos := b.pos + |Written(host, fs[0])|), fs[1..]);
      FirstThenRest(host, other, b, fs);
    }
  }

  lemma Halves(d: seq<int>, pos: nat, first: seq<int>, rest: seq<int>)
    requires pos + |first + rest| <= |d| && d[pos..pos + |first + rest|] == first + rest
    ensures d[pos..pos + |first|] == first && d[pos + |first|..pos + |first| + |rest|] == rest
  {
    var s := d[pos..pos + |first + rest|];
    assert d[pos..pos + |first|] == s[..|first|];
    assert d[pos + |first|..pos + |first| + |rest|] == s[|first|..];
  }

  lemma {:induction false} ArraysHaveWidth(fs: seq<Field>)
    requires AllFit(fs)
    ensures HaveWidth(Shapes(fs))
  {
    if fs != [] {
      RestFits(fs);
      ArraysHaveWidth(fs[1..]);
      assert forall i :: 1 <= i < |fs| ==> Shapes(fs)[i] == Shapes(fs[1..])[i - 1];
    }
  }

  /**
   * Any fields, each with its own width and byte order, written at any position of any buffer and read
   * from there with the same widths and byte orders, are what they were, even if a machine of the other
   * byte order reads them; what stands in front of them is not touched.
   */
  lemma FieldsRoundTrip(host: Endian, other: Endian, b: PktBuf, fs: seq<Field>)
    requires Sound(b) && AllFit(fs)
    ensures HaveWidth(Shapes(fs))
    ensures var written := PutAll(host, b, fs);
      var start := Seek(written, Set, b.pos);
      && Sound(written) && b.pos <= written.pos && written.data[..b.pos] == b.data[..b.pos]
      && start == Some(written.(pos := b.pos)) && Sound(start.value)
      && GetAll(other, start.value, Shapes(fs)) == Some((Contents(fs), written))
  {
    hide PutAll, GetAll, Contents, Shapes, AllWritten, AllFit, HaveWidth, Bytes, At, Seek;
    ArraysHaveWidth(fs);
    PutAllWrites(host, b, fs);
    var written := PutAll(host, b, fs);
    StartsAt(written, b.pos, AllWritten(host, fs));
    GetAllReads(host, other, written.(pos := b.pos), fs);
  }

  lemma StartsAt(b: PktBuf, start: nat, s: seq<int>)
    requires Sound(b) && start + |s| == b.pos && b.data[start..b.pos] == s
    ensures Seek(b, Set, start) == Some(b.(pos := start))
    ensures Sound(b.(pos := start)) && At(b.(pos := start), s)
  {}
}
