/**
 * The coder against the alphabet itself, written out (table 1 of RFC 4648): what each letter stands for
 * on both sides, what every other character does to the decoder, and where the line breaks are.
 */
module Base64Alphabet {
  import opened Base64Decode
  import opened Base64Encode

  const UPPER := "ABCDEFGHIJKLMNOPQRSTUVWXYZ"
  const LOWER := "abcdefghijklmnopqrstuvwxyz"
  const OTHER := "0123456789+/"
  const ALPHABET: string := UPPER + LOWER + OTHER

  /** The letter that stands for `v`. */
  function A(v: int): int
    requires 0 <= v < 64
  {
    assert |ALPHABET| == 64;
    ALPHABET[v] as int
  }

  lemma UpperIs(v: int)
    requires 0 <= v < 26
    ensures |UPPER| == 26 && UPPER[v] as int == 65 + v
  {}

  lemma LowerIs(v: int)
    requires 0 <= v < 26
    ensures |LOWER| == 26 && LOWER[v] as int == 97 + v
  {}

  lemma OtherIs(v: int)
    requires 0 <= v < 12
    ensures |OTHER| == 12 && OTHER[v] as int == if v < 10 then 48 + v else if v == 10 then 43 else 47
  {}

  lemma LettersAre(v: int)
    requires 0 <= v < 64
    ensures Letter(v) == A(v) && Meant(A(v)) == Value(v)
  {
    LetterAt(v);
    hide A, Letter, Meant;
    AlphabetsAgree(v, A(v));
  }

  lemma LetterAt(v: int)
    requires 0 <= v < 64
    ensures Letter(v) == A(v)
  {
    hide UPPER, LOWER, OTHER;
    UpperIs(if v < 26 then v else 0);
    LowerIs(if 26 <= v < 52 then v - 26 else 0);
    OtherIs(if 52 <= v then v - 52 else 0);
  }

  // ----- encoding -----

  lemma SextetsAre(a: int, b: int, c: int, i: int, j: int, k: int, l: int)
    requires 0 <= a < 256 && 0 <= b < 256 && 0 <= c < 256
    requires 0 <= i < 64 && 0 <= j < 64 && 0 <= k < 64 && 0 <= l < 64
    requires (a * 256 + b) * 256 + c == ((i * 64 + j) * 64 + k) * 64 + l
    ensures Sextets(a, b, c) == (i, j, k, l)
  {
    var (w, x, y, z) := Sextets(a, b, c);
    hide *;
    Unique((w * 64 + x) * 64 + y, z, (i * 64 + j) * 64 + k, l);
    Unique(w * 64 + x, y, i * 64 + j, k);
    Unique(w, x, i, j);
  }

  lemma Unique(a: int, i: int, b: int, j: int)
    requires a * 64 + i == b * 64 + j && 0 <= i < 64 && 0 <= j < 64
    ensures a == b && i == j
  {}

  /** Three bytes are the four letters of their 24 bits. */
  lemma ThreeAreFourLetters(a: int, b: int, c: int, i: int, j: int, k: int, l: int)
    requires 0 <= a < 256 && 0 <= b < 256 && 0 <= c < 256
    requires 0 <= i < 64 && 0 <= j < 64 && 0 <= k < 64 && 0 <= l < 64
    requires (a * 256 + b) * 256 + c == ((i * 64 + j) * 64 + k) * 64 + l
    ensures Base64([a, b, c]) == [A(i), A(j), A(k), A(l)]
  {
    hide Letter, A, Sextets;
    SextetsAre(a, b, c, i, j, k, l);
    assert [a, b, c][3..] == [];
    LettersAre(i);
    LettersAre(j);
    LettersAre(k);
    LettersAre(l);
  }

  /** Two bytes are three letters, the last one with two bits to spare, and a padding character. */
  lemma TwoAreThreeLetters(a: int, b: int, i: int, j: int, k: int)
    requires 0 <= a < 256 && 0 <= b < 256
    requires 0 <= i < 64 && 0 <= j < 64 && 0 <= k < 64
    requires (a * 256 + b) * 4 == (i * 64 + j) * 64 + k
    ensures Base64([a, b]) == [A(i), A(j), A(k), '=' as int]
  {
    hide Letter, A, Sextets;
    SextetsAre(a, b, 0, i, j, k, 0);
    LettersAre(i);
    LettersAre(j);
    LettersAre(k);
  }

  /** One byte is two letters, the second with four bits to spare, and two padding characters. */
  lemma OneIsTwoLetters(a: int, i: int, j: int)
    requires 0 <= a < 256 && 0 <= i < 64 && 0 <= j < 64
    requires a * 16 == i * 64 + j
    ensures Base64([a]) == [A(i), A(j), '=' as int, '=' as int]
  {
    hide Letter, A, Sextets;
    SextetsAre(a, 0, 0, i, j, 0, 0);
    LettersAre(i);
    LettersAre(j);
  }

  lemma GroupsFollow(a: int, b: int, c: int, rest: seq<int>)
    ensures Base64([]) == []
    ensures Base64([a, b, c] + rest) == Base64([a, b, c]) + Base64(rest)
  {
    assert ([a, b, c] + rest)[3..] == rest;
    assert [a, b, c][3..] == [];
    hide Quad;
  }

  // ----- line breaks -----

  /** Column `j` of line `i`, if every line has `n` characters. */
  function Place(i: nat, n: nat, j: nat): nat {
    i * n + j
  }

  lemma NextLine(i: nat, n: nat, j: nat)
    ensures Place(0, n, j) == j
    ensures 0 < i ==> Place(i, n, j) == n + Place(i - 1, n, j)
  {
    if 0 < i {
      assert i * n == (i - 1) * n + n;
    }
  }

  /** What `Lines` is for the character at `k` of `cs`, which goes to `p` of the text `t`. */
  ghost predicate Placed(ll: nat, cs: seq<int>, t: seq<int>, j: nat, k: nat, p: nat) {
    && k < |cs| && p < |t| && t[p] == cs[k]
    && (j == ll || k == |cs| - 1 ==> p + 3 <= |t| && t[p + 1..p + 3] == ['\r' as int, '\n' as int])
    && (k == |cs| - 1 ==> |t| == p + 3)
  }

  /** Character `j` of line `i` is where it should be; CR and LF follow a full line and the last character. */
  lemma {:induction false} LinesAt(ll: nat, cs: seq<int>, i: nat, j: nat)
    requires 0 < ll && j <= ll && Place(i, ll + 1, j) < |cs|
    ensures Placed(ll, cs, Lines(ll, cs), j, Place(i, ll + 1, j), Place(i, ll + 3, j))
    ensures Lines(0, cs) == cs
    decreases i
  {
    hide Place, Placed;
    NextLine(i, ll + 1, j);
    NextLine(i, ll + 3, j);
    if i == 0 {
      FirstLine(ll, cs, j);
    } else {
      LinesAt(ll, cs[ll + 1..], i - 1, j);
      OneLineLess(ll, cs);
      hide Lines;
      PlacedBehind(ll, cs, cs[..ll + 1] + ['\r' as int, '\n' as int], Lines(ll, cs[ll + 1..]), j,
        Place(i - 1, ll + 1, j), Place(i - 1, ll + 3, j));
    }
  }

  lemma FirstLine(ll: nat, cs: seq<int>, j: nat)
    requires 0 < ll && j <= ll && j < |cs|
    ensures Placed(ll, cs, Lines(ll, cs), j, j, j)
  {
    if |cs| > ll + 1 {
      OneLineLess(ll, cs);
    }
  }

  lemma PlacedBehind(ll: nat, cs: seq<int>, front: seq<int>, rest: seq<int>, j: nat, k: nat, p: nat)
    requires ll + 1 < |cs| && Placed(ll, cs[ll + 1..], rest, j, k, p)
    ensures Placed(ll, cs, front + rest, j, ll + 1 + k, |front| + p)
  {
    var t, q := front + rest, |front| + p;
    assert t[q] == rest[p];
    if p + 3 <= |rest| {
      assert t[q + 1..q + 3] == rest[p + 1..p + 3];
    }
  }

  lemma OneLineLess(ll: nat, cs: seq<int>)
    requires 0 < ll && ll + 1 < |cs|
    ensures Lines(ll, cs) == cs[..ll + 1] + ['\r' as int, '\n' as int] + Lines(ll, cs[ll + 1..])
  {}

  // ----- decoding -----

  lemma OneCharacter(tolerant: bool, d: Decoder, c: int)
    ensures Decode(tolerant, d, [c]) == Step(tolerant, d, Meant(c))
  {
    hide Meant, Step;
    var (d1, ok) := Step(tolerant, d, Meant(c));
    assert [c][1..] == [] && Decode(tolerant, d1, []) == (d1, true);
  }

  /** One character more, if the text before it is taken. */
  lemma Next(tolerant: bool, d: Decoder, d1: Decoder, text: seq<int>, c: int)
    requires Decode(tolerant, d, text) == (d1, true)
    ensures Decode(tolerant, d, text + [c]) == Step(tolerant, d1, Meant(c))
  {
    DecodeAdds(tolerant, d, text, [c]);
    OneCharacter(tolerant, d1, c);
    hide *;
  }

  /** A letter is taken like this in each phase. */
  lemma OneLetter(tolerant: bool, d: Decoder, v: int)
    requires 0 <= v < 64 && d.phase < 4
    ensures Step(tolerant, d, Meant(A(v))) == (Absorb(d, v), true)
  {
    LettersAre(v);
    hide Meant, A, Absorb;
  }

  lemma PaddingMeans()
    ensures Meant('=' as int) == Close
  {}

  lemma TwoLetters(tolerant: bool, d: Decoder, i: int, j: int)
    requires d.phase == 0 && 0 <= i < 64 && 0 <= j < 64
    ensures Decode(tolerant, d, [A(i), A(j)]) == (Decoder(d.out + [i * 4 + j / 16], j % 16 * 16, 2, d.errors), true)
  {
    hide Meant, A, Decode, Step;
    OneLetter(tolerant, d, i);
    OneCharacter(tolerant, d, A(i));
    var d1 := Absorb(d, i);
    OneLetter(tolerant, d1, j);
    Next(tolerant, d, d1, [A(i)], A(j));
    assert [A(i)] + [A(j)] == [A(i), A(j)];
  }

  lemma ThreeLetters(tolerant: bool, d: Decoder, i: int, j: int, k: int)
    requires d.phase == 0 && 0 <= i < 64 && 0 <= j < 64 && 0 <= k < 64
    ensures Decode(tolerant, d, [A(i), A(j), A(k)]) ==
      (Decoder(d.out + [i * 4 + j / 16, j % 16 * 16 + k / 4], k % 4 * 64, 3, d.errors), true)
  {
    hide Meant, A, Decode, Step;
    TwoLetters(tolerant, d, i, j);
    var d2 := Decoder(d.out + [i * 4 + j / 16], j % 16 * 16, 2, d.errors);
    OneLetter(tolerant, d2, k);
    Next(tolerant, d, d2, [A(i), A(j)], A(k));
    assert [A(i), A(j)] + [A(k)] == [A(i), A(j), A(k)];
    assert d.out + [i * 4 + j / 16] + [j % 16 * 16 + k / 4] == d.out + [i * 4 + j / 16, j % 16 * 16 + k / 4];
  }

  /** Four letters are three bytes, with the same 24 bits. */
  lemma FourLettersAreThree(tolerant: bool, d: Decoder, i: int, j: int, k: int, l: int, a: int, b: int, c: int)
    requires d.phase == 0 && d.partial == 0
    requires 0 <= i < 64 && 0 <= j < 64 && 0 <= k < 64 && 0 <= l < 64
    requires 0 <= a < 256 && 0 <= b < 256 && 0 <= c < 256
    requires ((i * 64 + j) * 64 + k) * 64 + l == (a * 256 + b) * 256 + c
    ensures Decode(tolerant, d, [A(i), A(j), A(k), A(l)]) == (d.(out := d.out + [a, b, c]), true)
  {
    hide Meant, A, Decode, Step;
    ThreeLetters(tolerant, d, i, j, k);
    BytesAre(i, j, k, l, a, b, c);
    var d3 := Decoder(d.out + [i * 4 + j / 16, j % 16 * 16 + k / 4], k % 4 * 64, 3, d.errors);
    OneLetter(tolerant, d3, l);
    Next(tolerant, d, d3, [A(i), A(j), A(k)], A(l));
    assert [A(i), A(j), A(k)] + [A(l)] == [A(i), A(j), A(k), A(l)];
    assert d.out + [a, b] + [c] == d.out + [a, b, c];
  }

  lemma BytesAre(i: int, j: int, k: int, l: int, a: int, b: int, c: int)
    requires 0 <= i < 64 && 0 <= j < 64 && 0 <= k < 64 && 0 <= l < 64
    requires 0 <= a < 256 && 0 <= b < 256 && 0 <= c < 256
    requires ((i * 64 + j) * 64 + k) * 64 + l == (a * 256 + b) * 256 + c
    ensures a == i * 4 + j / 16 && b == j % 16 * 16 + k / 4 && c == k % 4 * 64 + l
  {}

  /** Three letters and a padding character are two bytes; what the third letter has to spare is dropped. */
  lemma ThreeLettersAreTwo(tolerant: bool, d: Decoder, i: int, j: int, k: int, a: int, b: int, spare: int)
    requires d.phase == 0 && d.partial == 0
    requires 0 <= i < 64 && 0 <= j < 64 && 0 <= k < 64 && 0 <= a < 256 && 0 <= b < 256 && 0 <= spare < 4
    requires (i * 64 + j) * 64 + k == (a * 256 + b) * 4 + spare
    ensures Decode(tolerant, d, [A(i), A(j), A(k), '=' as int]) == (d.(out := d.out + [a, b]), true)
  {
    hide A, Decode;
    ThreeLetters(tolerant, d, i, j, k);
    BytesAre(i, j, k, 0, a, b, spare * 64);
    PaddingMeans();
    hide Meant;
    var d3 := Decoder(d.out + [i * 4 + j / 16, j % 16 * 16 + k / 4], k % 4 * 64, 3, d.errors);
    Next(tolerant, d, d3, [A(i), A(j), A(k)], '=' as int);
    assert [A(i), A(j), A(k)] + ['=' as int] == [A(i), A(j), A(k), '=' as int];
  }

  lemma TwoLettersAndPadding(tolerant: bool, d: Decoder, i: int, j: int, a: int, spare: int)
    requires d.phase == 0 && d.partial == 0
    requires 0 <= i < 64 && 0 <= j < 64 && 0 <= a < 256 && 0 <= spare < 16
    requires i * 64 + j == a * 16 + spare
    ensures Decode(tolerant, d, [A(i), A(j), '=' as int]) == (Decoder(d.out + [a], 0, 4, d.errors), true)
  {
    hide A, Decode;
    TwoLetters(tolerant, d, i, j);
    PaddingMeans();
    hide Meant;
    assert a == i * 4 + j / 16;
    var d2 := Decoder(d.out + [a], j % 16 * 16, 2, d.errors);
    Next(tolerant, d, d2, [A(i), A(j)], '=' as int);
    assert [A(i), A(j)] + ['=' as int] == [A(i), A(j), '=' as int];
  }

  /** Two letters and two padding characters are one byte. */
  lemma TwoLettersAreOne(tolerant: bool, d: Decoder, i: int, j: int, a: int, spare: int)
    requires d.phase == 0 && d.partial == 0
    requires 0 <= i < 64 && 0 <= j < 64 && 0 <= a < 256 && 0 <= spare < 16
    requires i * 64 + j == a * 16 + spare
    ensures Decode(tolerant, d, [A(i), A(j), '=' as int, '=' as int]) == (d.(out := d.out + [a]), true)
  {
    hide A, Decode;
    TwoLettersAndPadding(tolerant, d, i, j, a, spare);
    PaddingMeans();
    hide Meant;
    Next(tolerant, d, Decoder(d.out + [a], 0, 4, d.errors), [A(i), A(j), '=' as int], '=' as int);
    assert [A(i), A(j), '=' as int] + ['=' as int] == [A(i), A(j), '=' as int, '=' as int];
  }

  /** Padding after less than two letters is an error, or skipped. */
  lemma EarlyPadding(d: Decoder, i: int)
    requires d.phase == 0 && 0 <= i < 64
    ensures Decode(false, d, ['=' as int]) == (d.(errors := d.errors + 1), false)
    ensures Decode(true, d, ['=' as int]) == (d, true)
    ensures !Decode(false, d, [A(i), '=' as int]).1
    ensures Decode(true, d, [A(i), '=' as int]) == Decode(true, d, [A(i)])
  {
    hide A, Decode;
    PaddingMeans();
    OneCharacter(false, d, '=' as int);
    OneCharacter(true, d, '=' as int);
    OneLetter(false, d, i);
    OneLetter(true, d, i);
    OneCharacter(false, d, A(i));
    OneCharacter(true, d, A(i));
    hide Meant;
    var d1 := Absorb(d, i);
    assert d1.phase == 1;
    Next(false, d, d1, [A(i)], '=' as int);
    Next(true, d, d1, [A(i)], '=' as int);
    assert [A(i)] + ['=' as int] == [A(i), '=' as int];
  }

  /** A letter after a first padding character is an error, or begins a new group. */
  lemma LetterAfterPadding(d: Decoder, i: int, j: int, k: int, a: int, spare: int)
    requires d.phase == 0 && d.partial == 0
    requires 0 <= i < 64 && 0 <= j < 64 && 0 <= k < 64 && 0 <= a < 256 && 0 <= spare < 16
    requires i * 64 + j == a * 16 + spare
    ensures !Decode(false, d, [A(i), A(j), '=' as int, A(k)]).1
    ensures Decode(true, d, [A(i), A(j), '=' as int, A(k)]) == Decode(true, d.(out := d.out + [a]), [A(k)])
  {
    hide A, Decode, Absorb;
    TwoLettersAndPadding(false, d, i, j, a, spare);
    TwoLettersAndPadding(true, d, i, j, a, spare);
    LettersAre(k);
    hide Meant;
    var text, d4 := [A(i), A(j), '=' as int], Decoder(d.out + [a], 0, 4, d.errors);
    Next(false, d, d4, text, A(k));
    Next(true, d, d4, text, A(k));
    OneCharacter(true, d.(out := d.out + [a]), A(k));
    assert text + [A(k)] == [A(i), A(j), '=' as int, A(k)];
  }

  // ----- all other characters -----

  lemma OnlyLettersHaveValues(c: int)
    ensures Meant(c).Value? ==> 0 <= Meant(c).bits < 64 && c == A(Meant(c).bits)
  {
    if Meant(c).Value? {
      assert 0 <= Meant(c).bits < 64;
      AlphabetsAgree(Meant(c).bits, c);
      LettersAre(Meant(c).bits);
    }
  }

  /** A character that is no letter, no padding and no blank stops the strict decoder, which counts one error. */
  lemma ForeignCharacter(d: Decoder, c: int, rest: seq<int>)
    requires forall v :: 0 <= v < 64 ==> c != A(v)
    requires c !in ['=' as int, '\t' as int, '\n' as int, '\r' as int, ' ' as int]
    ensures Decode(false, d, [c] + rest) == (d.(errors := d.errors + 1), false)
    ensures Decode(true, d, [c] + rest) == Decode(true, d, rest)
  {
    OnlyLettersHaveValues(c);
    hide A;
    OneCharacter(false, d, c);
    OneCharacter(true, d, c);
    DecodeAdds(false, d, [c], rest);
    DecodeAdds(true, d, [c], rest);
    hide Decode, A;
  }

  /** Blanks and line breaks are skipped. */
  lemma BlankCharacter(tolerant: bool, d: Decoder, c: int, rest: seq<int>)
    requires c in ['\t' as int, '\n' as int, '\r' as int, ' ' as int]
    ensures Decode(tolerant, d, [c] + rest) == Decode(tolerant, d, rest)
  {
    OneCharacter(tolerant, d, c);
    DecodeAdds(tolerant, d, [c], rest);
    hide Decode;
  }
}
