/**
 * Bounded random bytes, src/random.c: random bits are cut into numbers of as many bits as the range
 * needs, and these are scaled to the range.
 *
 * Bits are written lowest first: bit 0 of byte 0 comes first, then bit 1.
 */
module RandomBounded {
  import opened Arithmetic
  import opened Sequences

  function Val(bits: seq<bool>): nat {
    if bits == [] then 0 else (if bits[0] then 1 else 0) + 2 * Val(bits[1..])
  }

  /** The lowest `n` bits of a number. */
  function BitsOf(v: nat, n: nat): (bits: seq<bool>)
    ensures |bits| == n
    decreases n
  {
    if n == 0 then [] else [v % 2 == 1] + BitsOf(v / 2, n - 1)
  }

  function AllBits(bytes: seq<int>): (bits: seq<bool>)
    requires forall k :: 0 <= k < |bytes| ==> 0 <= bytes[k] < 256
    ensures |bits| == 8 * |bytes|
  {
    if bytes == [] then [] else BitsOf(bytes[0], 8) + AllBits(bytes[1..])
  }

  lemma {:induction false} ValOfBits(v: nat, n: nat)
    ensures v < Pow2(n) ==> Val(BitsOf(v, n)) == v
    decreases n
  {
    if n > 0 {
      ValOfBits(v / 2, n - 1);
    }
  }

  lemma {:induction false} ValBound(bits: seq<bool>)
    ensures Val(bits) < Pow2(|bits|)
  {
    if bits != [] {
      ValBound(bits[1..]);
    }
  }

  lemma {:induction false} ValJoin(a: seq<bool>, b: seq<bool>)
    ensures Val(a + b) == Val(a) + Pow2(|a|) * Val(b)
  {
    if a == [] {
      assert a + b == b;
    } else {
      assert (a + b)[1..] == a[1..] + b;
      ValJoin(a[1..], b);
      Twice(Pow2(|a| - 1), Val(b));
    }
  }

  lemma Twice(x: int, y: int)
    ensures (2 * x) * y == 2 * (x * y)
  {}

  /** The lowest `n` bits of a number; MASK_FOR_N_BITS. */
  function Masked(v: nat, n: nat): nat {
    v % Pow2(n)
  }

  function ShiftedRight(v: nat, n: nat): nat {
    Quotient(v, Pow2(n));
    v / Pow2(n)
  }

  lemma Quotient(v: nat, d: nat)
    requires 0 < d
    ensures 0 <= v / d
  {
    assert 0 * d <= v && v < (v + 1) * d;
    DivBetween(v, d, 0, v + 1);
  }

  function ShiftedLeft(v: nat, n: nat): nat {
    v * Pow2(n)
  }

  /** Masking and shifting split the bits of a number. */
  lemma MaskAndShift(bits: seq<bool>, n: nat)
    requires n <= |bits|
    ensures Masked(Val(bits), n) == Val(bits[..n])
    ensures ShiftedRight(Val(bits), n) == Val(bits[n..])
  {
    hide Val, Pow2;
    var low, high := bits[..n], bits[n..];
    assert bits == low + high;
    ValBound(low);
    ValJoin(low, high);
    DivUnique(Pow2(n), Val(high), Val(low));
  }

  /** Shifting up makes room for low bits. */
  lemma ShiftAndAdd(low: seq<bool>, high: seq<bool>)
    ensures Val(low + high) == ShiftedLeft(Val(high), |low|) + Val(low)
  {
    ValJoin(low, high);
    assert Pow2(|low|) * Val(high) == Val(high) * Pow2(|low|);
  }

  lemma DivUnique(d: nat, q: nat, r: nat)
    requires r < d
    ensures (r + d * q) / d == q && (r + d * q) % d == r
  {
    var n := r + d * q;
    assert q * d == d * q;
    assert (q + 1) * d == q * d + d;
    DivBetween(n, d, q, q + 1);
    assert n == n / d * d + n % d;
  }

  lemma {:induction false} AllBitsAt(bytes: seq<int>, j: nat)
    requires j < |bytes| && forall k :: 0 <= k < |bytes| ==> 0 <= bytes[k] < 256
    ensures AllBits(bytes)[8 * j..8 * j + 8] == BitsOf(bytes[j], 8)
  {
    var first, rest := BitsOf(bytes[0], 8), AllBits(bytes[1..]);
    assert AllBits(bytes) == first + rest;
    hide BitsOf;
    if j == 0 {
      assert (first + rest)[0..8] == first;
    } else {
      AllBitsAt(bytes[1..], j - 1);
      hide AllBits;
      Past(first, rest, 8 * j, 8 * j + 8);
    }
  }

  lemma Past(a: seq<bool>, b: seq<bool>, i: nat, k: nat)
    requires |a| <= i <= k <= |a + b|
    ensures (a + b)[i..k] == b[i - |a|..k - |a|]
  {}

  // ----- the scaling -----

  /** How many bits it takes to write `bound`. */
  function BitLength(bound: nat): (n: nat)
    ensures Pow2(n) > bound && (bound > 0 ==> 2 * bound >= Pow2(n))
  {
    if bound == 0 then 0 else 1 + BitLength(bound / 2)
  }

  lemma BitLengthOfByte(bound: nat)
    requires 0 < bound < 256
    ensures 1 <= BitLength(bound) <= 8
  {
    var n := BitLength(bound);
    if n > 8 {
      Pow2Grows(9, n);
    }
  }

  lemma {:induction false} Pow2Grows(m: nat, n: nat)
    requires m <= n
    ensures Pow2(m) <= Pow2(n)
    decreases n
  {
    if m < n {
      Pow2Grows(m, n - 1);
    }
  }

  /** A number, scaled from `full` down to `m`. */
  function Part(raw: nat, m: nat, full: nat): nat
    requires 0 < full
  {
    raw * m / full
  }

  /** A number of `bits` bits, scaled to the range from `min` to `max`. */
  function Scale(raw: nat, bits: nat, min: nat, max: nat): nat
    requires min < max && 0 < bits
  {
    (Part(raw, max - min, Pow2(bits) - 1) + min) % 256
  }

  lemma PartGrows(raw: nat, m: nat, full: nat)
    requires 0 < m <= full < 2 * m
    ensures Part(raw, m, full) <= Part(raw + 1, m, full) <= Part(raw, m, full) + 1
    ensures Part(raw, m, full) < Part(raw + 2, m, full)
  {
    var q := Part(raw, m, full);
    assert q * full <= raw * m < q * full + full;
    assert (raw + 1) * m == raw * m + m && (raw + 2) * m == raw * m + 2 * m;
    assert (q + 1) * full == q * full + full && (q + 2) * full == q * full + 2 * full && (q + 3) * full == q * full + 3 * full;
    DivBetween((raw + 1) * m, full, q, q + 2);
    DivBetween((raw + 2) * m, full, q + 1, q + 3);
  }

  lemma {:induction false} PartMonotone(a: nat, b: nat, m: nat, full: nat)
    requires 0 < m <= full < 2 * m && a <= b
    ensures Part(a, m, full) <= Part(b, m, full)
    ensures a + 2 <= b ==> Part(a, m, full) < Part(b, m, full)
    decreases b
  {
    if a < b {
      PartMonotone(a, b - 1, m, full);
      PartGrows(b - 1, m, full);
      if a + 2 == b {
        PartGrows(a, m, full);
      }
    }
  }

  lemma PartRange(raw: nat, m: nat, full: nat)
    requires 0 < m <= full && raw <= full
    ensures Part(raw, m, full) <= m
  {
    LessTimes(raw, full, m);
    assert raw * m <= full * m < (m + 1) * full by {
      assert (m + 1) * full == full * m + full;
    }
    assert 0 * full <= raw * m;
    DivBetween(raw * m, full, 0, m + 1);
  }

  /** The least number that is scaled to `v`. */
  function Source(v: nat, m: nat, full: nat): nat
    requires 0 < m
  {
    (v * full + m - 1) / m
  }

  lemma SourceHits(v: nat, m: nat, full: nat)
    requires 0 < m <= full && v <= m
    ensures Source(v, m, full) <= full && Part(Source(v, m, full), m, full) == v
  {
    var n := v * full + m - 1;
    var r := n / m;
    assert r * m <= n < r * m + m;
    hide *;
    assert v * full <= r * m <= v * full + m - 1;
    assert (v + 1) * full == v * full + full;
    DivBetween(r * m, full, v, v + 1);
    SourceBelow(v, m, full);
  }

  lemma SourceBelow(v: nat, m: nat, full: nat)
    requires 0 < m <= full && v <= m
    ensures Source(v, m, full) <= full
  {
    var n := v * full + m - 1;
    LessTimes(v, m, full);
    assert (full + 1) * m == m * full + m;
    assert 0 * m <= n;
    DivBetween(n, m, 0, full + 1);
  }

  /** For the number of bits that the range needs, the scaling stays in the range. */
  lemma ScaleIsPart(raw: nat, min: nat, max: nat)
    requires min < max < 256 && raw < Pow2(BitLength(max - min))
    ensures var bits := BitLength(max - min);
      0 < bits && 0 < max - min <= Pow2(bits) - 1 < 2 * (max - min)
      && Scale(raw, bits, min, max) == Part(raw, max - min, Pow2(bits) - 1) + min
      && min <= Scale(raw, bits, min, max) <= max
  {
    hide Part, Pow2, BitLength;
    BitLengthOfByte(max - min);
    var full := Pow2(BitLength(max - min)) - 1;
    PartRange(raw, max - min, full);
    AByte(Part(raw, max - min, full) + min);
  }

  lemma AByte(n: nat)
    requires n < 256
    ensures n % 256 == n
  {}

  /** The scaling is monotone, and only neighbours can be scaled to the same value: at most two of them. */
  lemma ScalingIsNearlyEven(a: nat, b: nat, min: nat, max: nat)
    requires min < max < 256 && a < b < Pow2(BitLength(max - min))
    ensures var bits := BitLength(max - min);
      && 0 < bits
      && Scale(a, bits, min, max) <= Scale(b, bits, min, max)
      && (Scale(a, bits, min, max) == Scale(b, bits, min, max) ==> b == a + 1)
  {
    ScaleIsPart(a, min, max);
    ScaleIsPart(b, min, max);
    PartMonotone(a, b, max - min, Pow2(BitLength(max - min)) - 1);
    hide Part, Pow2;
  }

  /** Every value of the range is reached. */
  lemma ScalingIsOnto(v: nat, min: nat, max: nat) returns (raw: nat)
    requires min <= v <= max < 256 && min < max
    ensures var bits := BitLength(max - min);
      0 < bits && raw < Pow2(bits) && Scale(raw, bits, min, max) == v
  {
    var m, full := max - min, Pow2(BitLength(max - min)) - 1;
    ScaleIsPart(0, min, max);
    SourceHits(v - min, m, full);
    raw := Source(v - min, m, full);
    ScaleIsPart(raw, min, max);
    hide Part, Pow2;
  }

  // ----- the bits of one output -----

  /** How many bits of the current byte are left after `p` bits. */
  function Unused(p: nat): nat {
    (8 - p % 8) % 8
  }

  /** The bits number `i` is made of: those that follow the bits of the numbers before. */
  function Slice(bits: seq<bool>, n: nat, p: nat): (s: seq<bool>)
    requires p + n <= |bits|
    ensures |s| == n
  {
    bits[p..p + n]
  }

  /** Bits left over from the byte before become the high ones. */
  function Raw(bits: seq<bool>, n: nat, p: nat): (s: seq<bool>)
    requires p + n <= |bits|
    ensures |s| == n
  {
    var s, u := Slice(bits, n, p), Unused(p);
    if n <= u then s else s[u..] + s[..u]
  }

  /** Which bits become high depends on the place only, so different bits make different numbers. */
  lemma RawIsAPermutation(bits: seq<bool>, other: seq<bool>, n: nat, p: nat)
    requires p + n <= |bits| && p + n <= |other|
    ensures Raw(bits, n, p) == Raw(other, n, p) <==> Slice(bits, n, p) == Slice(other, n, p)
    ensures multiset(Raw(bits, n, p)) == multiset(Slice(bits, n, p))
  {
    var s, t, u := Slice(bits, n, p), Slice(other, n, p), Unused(p);
    if n > u {
      assert Raw(bits, n, p) == s[u..] + s[..u] && Raw(other, n, p) == t[u..] + t[..u];
      hide *;
      Rotated(s, t, u);
    }
  }

  lemma Rotated(s: seq<bool>, t: seq<bool>, u: nat)
    requires |s| == |t| && u <= |s|
    ensures s[u..] + s[..u] == t[u..] + t[..u] <==> s == t
    ensures multiset(s[u..] + s[..u]) == multiset(s)
  {
    assert s == s[..u] + s[u..] && t == t[..u] + t[u..];
    var n := |s| - u;
    assert (s[u..] + s[..u])[..n] == s[u..] && (s[u..] + s[..u])[n..] == s[..u];
    assert (t[u..] + t[..u])[..n] == t[u..] && (t[u..] + t[..u])[n..] == t[..u];
    assert multiset(s) == multiset(s[..u]) + multiset(s[u..]);
  }

  lemma {:induction false} ValInjective(a: seq<bool>, b: seq<bool>)
    requires |a| == |b| && Val(a) == Val(b)
    ensures a == b
  {
    if a != [] {
      assert a[0] == b[0];
      ValInjective(a[1..], b[1..]);
      assert a == [a[0]] + a[1..] && b == [b[0]] + b[1..];
    }
  }

  /** Equal numbers come only from equal bits: no number is more likely than another. */
  lemma NumbersTellTheirBits(bits: seq<bool>, other: seq<bool>, n: nat, p: nat)
    requires p + n <= |bits| && p + n <= |other|
    ensures Val(Raw(bits, n, p)) == Val(Raw(other, n, p)) <==> Slice(bits, n, p) == Slice(other, n, p)
  {
    hide Val, Raw, Slice;
    RawIsAPermutation(bits, other, n, p);
    if Val(Raw(bits, n, p)) == Val(Raw(other, n, p)) {
      ValInjective(Raw(bits, n, p), Raw(other, n, p));
    }
  }

  // ----- the loop -----

  /** How many random bytes are asked for. */
  function Needed(n: nat, len: nat): nat {
    (n * len + 7) / 8
  }

  /** Output number `i`: a number of `n` bits of its own, scaled; it is in the range. */
  ghost predicate IsOutput(bits: seq<bool>, n: nat, i: nat, min: nat, max: nat, v: int)
    requires min < max && 0 < n
  {
    var p := Place(n, i);
    p + n <= |bits| && v == Scale(Val(Raw(bits, n, p)), n, min, max) && min <= v <= max
  }

  /** Where the bits of output number `i` begin. */
  function Place(n: nat, i: nat): nat {
    n * i
  }

  lemma InBits(n: nat, i: nat, len: nat)
    requires i < len
    ensures n * i + n <= n * len
  {
    Distribute(n, i, 1);
    Distribute(n, i + 1, len - i - 1);
  }

  lemma Distribute(n: nat, a: nat, b: nat)
    ensures n * (a + b) == n * a + n * b && 0 <= n * b
  {}

  /** The reservoir: the bits left of the byte read last. */
  ghost predicate Reservoir(bits: seq<bool>, p: nat, j: nat, buffer: nat, unused: nat) {
    && unused == Unused(p) && p + unused == 8 * j && 8 * j <= |bits|
    && buffer == Val(bits[p..8 * j])
  }

  lemma UnusedAfter(p: nat, n: nat)
    requires 0 < n <= 8
    ensures Unused(p + n) == if n <= Unused(p) then Unused(p) - n else 8 - (n - Unused(p))
  {
    hide Unused;
    var q, r := p / 8, p % 8;
    UnusedIs(q, r);
    if r + n < 8 {
      UnusedIs(q, r + n);
    } else {
      UnusedIs(q + 1, r + n - 8);
    }
  }

  lemma UnusedIs(q: nat, r: nat)
    requires r < 8
    ensures Unused(8 * q + r) == if r == 0 then 0 else 8 - r
  {
    assert (8 * q + r) % 8 == r;
  }

  /** Enough bits are left: they are masked off and shifted away. */
  lemma FromReservoir(bits: seq<bool>, n: nat, p: nat, j: nat, buffer: nat, unused: nat)
    requires 0 < n <= 8 && p + n <= |bits| && n <= unused && Reservoir(bits, p, j, buffer, unused)
    ensures Masked(buffer, n) == Val(Raw(bits, n, p))
    ensures Reservoir(bits, p + n, j, ShiftedRight(buffer, n), unused - n)
  {
    UnusedAfter(p, n);
    hide Val, Pow2, Masked, ShiftedRight, Unused;
    var rest := bits[p..8 * j];
    MaskAndShift(rest, n);
    assert rest[..n] == bits[p..p + n];
    assert rest[n..] == bits[p + n..8 * j];
  }

  /** Too few bits are left: they become the high ones, and a new byte gives the others. */
  lemma FromNewByte(bits: seq<bool>, byte: nat, n: nat, p: nat, j: nat, buffer: nat, unused: nat)
    requires 0 < n <= 8 && p + n <= |bits| && unused < n && Reservoir(bits, p, j, buffer, unused)
    requires 8 * j + 8 <= |bits| && Val(bits[8 * j..8 * j + 8]) == byte
    ensures var offset := n - unused;
      && ShiftedLeft(buffer, offset) + Masked(byte, offset) == Val(Raw(bits, n, p))
      && Reservoir(bits, p + n, j + 1, ShiftedRight(byte, offset), 8 - offset)
  {
    UnusedAfter(p, n);
    hide Val, Pow2, Masked, ShiftedRight, ShiftedLeft, Unused, Raw;
    var offset := n - unused;
    var left, next := bits[p..8 * j], bits[8 * j..8 * j + 8];
    MaskAndShift(next, offset);
    Borrow(bits, n, p, j, left, next);
    ShiftAndAdd(next[..offset], left);
    assert next[offset..] == bits[p + n..8 * (j + 1)];
  }

  lemma InRange(bits: seq<bool>, n: nat, p: nat, min: nat, max: nat)
    requires min < max < 256 && n == BitLength(max - min) && p + n <= |bits|
    ensures 0 < n && min <= Scale(Val(Raw(bits, n, p)), n, min, max) <= max
  {
    ValBound(Raw(bits, n, p));
    ScaleIsPart(Val(Raw(bits, n, p)), min, max);
    hide Val, Raw, Scale;
  }

  lemma ByteAt(bytes: seq<int>, j: nat)
    requires Bytes(bytes) && j < |bytes|
    ensures Val(AllBits(bytes)[8 * j..8 * j + 8]) == bytes[j]
  {
    AllBitsAt(bytes, j);
    EightBits();
    ValOfBits(bytes[j], 8);
    hide AllBits, Val, Pow2, BitsOf;
  }

  lemma EightBits()
    ensures Pow2(8) == 256
  {
    assert Pow2(4) == 16;
  }

  lemma Borrow(bits: seq<bool>, n: nat, p: nat, j: nat, left: seq<bool>, next: seq<bool>)
    requires 0 < n <= 8 && Unused(p) < n && p + Unused(p) == 8 * j && 8 * j + 8 <= |bits|
    requires left == bits[p..8 * j] && next == bits[8 * j..8 * j + 8]
    ensures p + n <= |bits| && Raw(bits, n, p) == next[..n - Unused(p)] + left
  {
    var u := Unused(p);
    var s := Slice(bits, n, p);
    assert s[..u] == left;
    assert s[u..] == next[..n - u];
  }

  /** The next bits: from the reservoir, or from it and a new byte. */
  method TakeBits(random: seq<int>, n: nat, ghost p: nat, buffer: nat, unused: nat, j: nat)
      returns (raw: nat, buffer': nat, unused': nat, j': nat)
    requires Bytes(random) && 0 < n <= 8 && p + n <= 8 * |random|
    requires Reservoir(AllBits(random), p, j, buffer, unused)
    ensures raw == Val(Raw(AllBits(random), n, p))
    ensures Reservoir(AllBits(random), p + n, j', buffer', unused')
  {
    hide AllBits, Val, Pow2, Raw, Masked, ShiftedRight, ShiftedLeft;
    ghost var bits := AllBits(random);
    if n <= unused {
      FromReservoir(bits, n, p, j, buffer, unused);
      hide Reservoir;
      raw := Masked(buffer, n);
      buffer' := ShiftedRight(buffer, n);
      unused' := unused - n;
      j' := j;
    } else {
      var offset := n - unused;
      assert j < |random|;
      ByteAt(random, j);
      FromNewByte(bits, random[j], n, p, j, buffer, unused);
      hide Reservoir;
      raw := ShiftedLeft(buffer, offset);
      buffer' := random[j];
      j' := j + 1;
      unused' := 8;
      raw := raw + Masked(buffer', offset);
      buffer' := ShiftedRight(buffer', offset);
      unused' := unused' - offset;
    }
  }

  lemma NextPlace(n: nat, i: nat)
    ensures Place(n, i + 1) == Place(n, i) + n
  {}

  lemma Enough(bits: seq<bool>, n: nat, i: nat, len: nat, min: nat, max: nat)
    requires i < len && |bits| == 8 * Needed(n, len)
    requires min < max < 256 && n == BitLength(max - min)
    ensures 0 < n && Place(n, i) + n <= |bits| && Place(n, i + 1) == Place(n, i) + n
    ensures IsOutput(bits, n, i, min, max, Scale(Val(Raw(bits, n, Place(n, i))), n, min, max))
  {
    InBits(n, i, len);
    NextPlace(n, i);
    InRange(bits, n, Place(n, i), min, max);
    hide Val, Raw, Scale, BitLength, Place;
  }

  lemma EmptyReservoir(bits: seq<bool>, n: nat)
    ensures Reservoir(bits, Place(n, 0), 0, 0, 0)
  {
    assert bits[0..0] == [];
  }

  /** All the bytes are used up. */
  lemma UsedUp(bits: seq<bool>, n: nat, len: nat, j: nat, buffer: nat, unused: nat)
    requires Reservoir(bits, Place(n, len), j, buffer, unused)
    ensures j == Needed(n, len)
  {
    hide Val;
  }

  /** The first outputs are what they should be. */
  ghost predicate AreOutputs(bits: seq<bool>, n: nat, min: nat, max: nat, vs: seq<int>)
    requires min < max && 0 < n
  {
    forall i :: 0 <= i < |vs| ==> IsOutput(bits, n, i, min, max, vs[i])
  }

  lemma NoOutputs(bits: seq<bool>, n: nat, min: nat, max: nat)
    requires min < max && 0 < n
    ensures AreOutputs(bits, n, min, max, [])
  {}

  lemma OneMoreOutput(bits: seq<bool>, n: nat, min: nat, max: nat, vs: seq<int>, v: int)
    requires min < max && 0 < n && AreOutputs(bits, n, min, max, vs) && IsOutput(bits, n, |vs|, min, max, v)
    ensures AreOutputs(bits, n, min, max, vs + [v])
  {
    hide IsOutput;
  }

  method Store(target: array<int>, i: nat, value: int)
    requires i < target.Length
    modifies target
    ensures target[..i + 1] == old(target[..i]) + [value]
  {
    target[i] := value;
  }

  /** The loop over the outputs. */
  method Fill(target: array<int>, numBits: nat, min: nat, max: nat, random: seq<int>) returns (ghost read: nat)
    requires min < max < 256 && numBits == BitLength(max - min)
    requires Bytes(random) && |random| == Needed(numBits, target.Length)
    modifies target
    ensures 0 < numBits && read == |random|
    ensures AreOutputs(AllBits(random), numBits, min, max, target[..])
  {
    hide Reservoir, AreOutputs, Scale, Raw, Val, BitLength, Needed, Place, AllBits;
    BitLengthOfByte(max - min);
    ghost var bits := AllBits(random);
    var unused, buffer, j := 0, 0, 0;
    EmptyReservoir(bits, numBits);
    NoOutputs(bits, numBits, min, max);
    assert target[..0] == [];
    for i := 0 to target.Length
      invariant Reservoir(bits, Place(numBits, i), j, buffer, unused)
      invariant AreOutputs(bits, numBits, min, max, target[..i])
    {
      hide *;
      Enough(bits, numBits, i, target.Length, min, max);
      var raw;
      raw, buffer, unused, j := TakeBits(random, numBits, Place(numBits, i), buffer, unused, j);
      var value := Scale(raw, numBits, min, max);
      OneMoreOutput(bits, numBits, min, max, target[..i], value);
      Store(target, i, value);
    }
    assert target[..target.Length] == target[..];
    hide *;
    UsedUp(bits, numBits, target.Length, j, buffer, unused);
    read := j;
  }

  /**
   * z_random_sequence_get_bounded, where `random` is what z_random_sequence_get delivers, if anything.
   * All of the bytes asked for are used, in order, and each output is made of bits of its own.
   */
  method GetBounded(target: array<int>, min: nat, max: nat, random: seq<int>, delivered: bool) returns (ok: bool, ghost read: nat)
    requires max < 256
    requires min < max ==> Bytes(random) && |random| == Needed(BitLength(max - min), target.Length)
    modifies target
    ensures ok <==> min < max && delivered
    ensures !ok ==> target[..] == old(target[..])
    ensures ok ==> var n := BitLength(max - min);
      && 0 < n && read == |random|
      && AreOutputs(AllBits(random), n, min, max, target[..])
  {
    hide AllBits, BitLength, AreOutputs, Needed, Bytes;
    if min >= max {
      return false, 0;
    }
    var numBits := CountBits(max - min);
    if !delivered {
      return false, 0;
    }
    read := Fill(target, numBits, min, max, random);
    return true, read;
  }

  /** The loop that counts the bits of the bound. */
  method CountBits(bound: nat) returns (n: nat)
    ensures n == BitLength(bound)
  {
    n := 0;
    var b := bound;
    while b > 0
      invariant BitLength(bound) == n + BitLength(b)
    {
      n := n + 1;
      b := b / 2;
    }
  }
}
