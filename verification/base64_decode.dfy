/**
 * The streaming base64 decoder of src/code_base64.c on values, and the round trip.
 *
 * `Parse` is what a text means, by section 4 of RFC 4648: groups of four letters, the last ones
 * perhaps padded.  The strict decoder accepts exactly the texts that have a meaning, once blanks and
 * line breaks are left out.
 */
module Base64Decode {
  import opened Base64Encode
  import opened Sequences
  import opened Wrappers

  /** `partial` is the byte behind the output, where it is in use. */
  datatype Decoder = Decoder(out: seq<int>, partial: int, phase: nat, errors: nat)

  const FreshDecoder := Decoder([], 0, 0, 0)

  /** A value goes into the byte that is being built. */
  function Absorb(d: Decoder, v: int): Decoder {
    if d.phase == 0 then d.(partial := v * 4, phase := 1)
    else if d.phase == 1 then d.(out := d.out + [d.partial + v / 16], partial := v % 16 * 16, phase := 2)
    else if d.phase == 2 then d.(out := d.out + [d.partial + v / 4], partial := v % 4 * 64, phase := 3)
    else d.(out := d.out + [d.partial + v], partial := 0, phase := 0)
  }

  /** The loop body of z_code_base64_decode_transform: the new state, and whether to go on. */
  function Step(tolerant: bool, d: Decoder, m: Meaning): (Decoder, bool) {
    var failed := if tolerant then (d, true) else (d.(errors := d.errors + 1), false);
    match m
    case Skip => (d, true)
    case Close =>
      if d.phase < 2 then failed
      else (d.(partial := 0, phase := if d.phase == 2 then 4 else 0), true)
    case Illegal => failed
    case Value(v) =>
      if d.phase == 4 && !tolerant then failed
      else (Absorb(if d.phase == 4 then d.(phase := 0) else d, v), true)
  }

  /** z_code_base64_decode_transform. */
  function Decode(tolerant: bool, d: Decoder, text: seq<int>): (Decoder, bool)
    decreases |text|
  {
    if text == [] then (d, true)
    else
      var (d1, ok) := Step(tolerant, d, Meant(text[0]));
      if ok then Decode(tolerant, d1, text[1..]) else (d1, false)
  }

  /** z_code_base64_decode_finish. */
  function DecodeFinish(tolerant: bool, d: Decoder): (Decoder, bool) {
    (d.(partial := 0, phase := 0), d.phase == 0 || tolerant)
  }

  // ----- the meaning of a text -----

  /** The characters of a text that count. */
  function Significant(text: seq<int>): seq<Meaning> {
    if text == [] then []
    else if Meant(text[0]) == Skip then Significant(text[1..])
    else [Meant(text[0])] + Significant(text[1..])
  }

  /** Four sextets are three bytes. */
  function Octets(i: int, j: int, k: int, l: int): (int, int, int) {
    (i * 4 + j / 16, j % 16 * 16 + k / 4, k % 4 * 64 + l)
  }

  lemma OctetsInvertSextets(a: int, b: int, c: int)
    requires 0 <= a < 256 && 0 <= b < 256 && 0 <= c < 256
    ensures var (i, j, k, l) := Sextets(a, b, c); Octets(i, j, k, l) == (a, b, c)
  {
    Split(a % 4, b / 16, 16);
    Split(b % 16, c / 64, 4);
  }

  lemma Split(high: int, low: int, n: int)
    requires 0 <= low < n
    requires n == 16 || n == 4
    ensures (high * n + low) / n == high && (high * n + low) % n == low
  {}

  /** A group of four characters: three bytes, or two and one padding character, or one and two of them. */
  function Quantum(w: Meaning, x: Meaning, y: Meaning, z: Meaning): Option<seq<int>> {
    if w.Value? && x.Value? && y.Value? && z.Value? then
      var (a, b, c) := Octets(w.bits, x.bits, y.bits, z.bits);
      Some([a, b, c])
    else if w.Value? && x.Value? && y.Value? && z.Close? then
      var (a, b, _) := Octets(w.bits, x.bits, y.bits, 0);
      Some([a, b])
    else if w.Value? && x.Value? && y.Close? && z.Close? then
      var (a, _, _) := Octets(w.bits, x.bits, 0, 0);
      Some([a])
    else None
  }

  function Parse(ms: seq<Meaning>): Option<seq<int>> {
    if ms == [] then Some([])
    else if |ms| < 4 then None
    else
      var q, rest := Quantum(ms[0], ms[1], ms[2], ms[3]), Parse(ms[4..]);
      if q.Some? && rest.Some? then Some(q.value + rest.value) else None
  }

  // ----- the strict decoder accepts what has a meaning -----

  function Walk(tolerant: bool, d: Decoder, ms: seq<Meaning>): (Decoder, bool)
    decreases |ms|
  {
    if ms == [] then (d, true)
    else
      var (d1, ok) := Step(tolerant, d, ms[0]);
      if ok then Walk(tolerant, d1, ms[1..]) else (d1, false)
  }

  lemma {:induction false} DecodeIsWalk(tolerant: bool, d: Decoder, text: seq<int>)
    ensures Decode(tolerant, d, text) == Walk(tolerant, d, Significant(text))
    decreases |text|
  {
    if text != [] {
      var m := Meant(text[0]);
      var (d1, ok) := Step(tolerant, d, m);
      hide Meant;
      if m == Skip {
        assert (d1, ok) == (d, true);
        DecodeIsWalk(tolerant, d, text[1..]);
      } else {
        hide Step;
        assert Significant(text)[1..] == Significant(text[1..]);
        if ok {
          DecodeIsWalk(tolerant, d1, text[1..]);
        }
      }
    }
  }

  /** Strictly accepted, at the end of a group. */
  predicate Accepted(r: (Decoder, bool)) {
    r.1 && r.0.phase == 0
  }

  lemma OneStep(d: Decoder, ms: seq<Meaning>)
    requires ms != []
    ensures var s := Step(false, d, ms[0]);
      Walk(false, d, ms) == if s.1 then Walk(false, s.0, ms[1..]) else s
  {}

  /** Up to four steps of the strict decoder. */
  function Four(d: Decoder, w: Meaning, x: Meaning, y: Meaning, z: Meaning): (Decoder, bool) {
    var s1 := Step(false, d, w);
    if !s1.1 then s1 else
    var s2 := Step(false, s1.0, x);
    if !s2.1 then s2 else
    var s3 := Step(false, s2.0, y);
    if !s3.1 then s3 else
    Step(false, s3.0, z)
  }

  lemma FourSteps(d: Decoder, ms: seq<Meaning>)
    requires |ms| >= 4
    ensures var s := Four(d, ms[0], ms[1], ms[2], ms[3]);
      Walk(false, d, ms) == if s.1 then Walk(false, s.0, ms[4..]) else s
  {
    hide Step, Walk;
    OneStep(d, ms);
    var s1 := Step(false, d, ms[0]);
    if s1.1 {
      OneStep(s1.0, ms[1..]);
      var s2 := Step(false, s1.0, ms[1]);
      assert ms[1..][1..] == ms[2..];
      if s2.1 {
        OneStep(s2.0, ms[2..]);
        var s3 := Step(false, s2.0, ms[2]);
        assert ms[2..][1..] == ms[3..];
        if s3.1 {
          OneStep(s3.0, ms[3..]);
          assert ms[3..][1..] == ms[4..];
        }
      }
    }
  }

  /** Four characters are accepted exactly if they are a group, and then give its bytes. */
  lemma FourIsQuantum(d: Decoder, w: Meaning, x: Meaning, y: Meaning, z: Meaning)
    requires d.phase == 0 && d.partial == 0
    requires w != Skip && x != Skip && y != Skip && z != Skip
    ensures var s, q := Four(d, w, x, y, z), Quantum(w, x, y, z);
      && (s.1 <==> q.Some?)
      && (s.1 ==> s.0 == d.(out := d.out + q.value))
  {
    var s := Four(d, w, x, y, z);
    if s.1 {
      var q := Quantum(w, x, y, z).value;
      if y.Close? {
        assert s.0.out == d.out + q;
      } else if z.Close? {
        assert s.0.out == d.out + [q[0]] + [q[1]];
        assert s.0.out == d.out + q;
      } else {
        assert s.0.out == d.out + [q[0]] + [q[1]] + [q[2]];
        assert s.0.out == d.out + q;
      }
    }
  }

  ghost predicate NoSkips(ms: seq<Meaning>) {
    forall i :: 0 <= i < |ms| ==> ms[i] != Skip
  }

  lemma {:induction false} SignificantHasNoSkips(text: seq<int>)
    ensures NoSkips(Significant(text))
  {
    if text != [] {
      hide Meant;
      SignificantHasNoSkips(text[1..]);
    }
  }

  /** Fewer than four characters do not end at the end of a group. */
  lemma ShortIsOpen(d: Decoder, ms: seq<Meaning>)
    requires d.phase == 0 && 0 < |ms| < 4 && NoSkips(ms)
    ensures !Accepted(Walk(false, d, ms))
  {
    OneStep(d, ms);
    var s1 := Step(false, d, ms[0]);
    if s1.1 {
      assert s1.0.phase == 1;
      if |ms| == 1 {
        assert Walk(false, s1.0, ms[1..]) == s1;
      } else {
        OneStep(s1.0, ms[1..]);
        var s2 := Step(false, s1.0, ms[1]);
        if s2.1 {
          assert s2.0.phase == 2;
          assert ms[1..][1..] == ms[2..];
          if |ms| == 2 {
            assert Walk(false, s2.0, ms[2..]) == s2;
          } else {
            OneStep(s2.0, ms[2..]);
            assert ms[2..][1..] == [];
          }
        }
      }
    }
  }

  lemma {:induction false} WalkIsParse(d: Decoder, ms: seq<Meaning>)
    requires d.phase == 0 && d.partial == 0 && NoSkips(ms)
    ensures var r, p := Walk(false, d, ms), Parse(ms);
      && (Accepted(r) <==> p.Some?)
      && (p.Some? ==> r.0 == d.(out := d.out + p.value))
    decreases |ms|
  {
    if ms == [] {
      assert d.out + [] == d.out;
    } else if |ms| < 4 {
      ShortIsOpen(d, ms);
    } else {
      var rest := ms[4..];
      ParseGroup(ms);
      FourSteps(d, ms);
      FourIsQuantum(d, ms[0], ms[1], ms[2], ms[3]);
      assert NoSkips(rest);
      hide Quantum, Four, Walk, Parse, NoSkips;
      var s, q, p := Four(d, ms[0], ms[1], ms[2], ms[3]), Quantum(ms[0], ms[1], ms[2], ms[3]), Parse(rest);
      if s.1 {
        WalkIsParse(s.0, rest);
        if p.Some? {
          assert d.out + q.value + p.value == d.out + (q.value + p.value);
        }
      }
    }
  }

  lemma ParseGroup(ms: seq<Meaning>)
    requires |ms| >= 4
    ensures var q, p := Quantum(ms[0], ms[1], ms[2], ms[3]), Parse(ms[4..]);
      Parse(ms) == if q.Some? && p.Some? then Some(q.value + p.value) else None
  {}

  /**
   * For every text: the strict decoder takes it to the end, and finishes, exactly if its significant
   * characters are a base64 encoding; the output is then its meaning and no error is counted.
   */
  lemma StrictDecodesExactlyEncodings(d: Decoder, text: seq<int>)
    requires d.phase == 0 && d.partial == 0
    ensures var r, p := Decode(false, d, text), Parse(Significant(text));
      && ((r.1 && DecodeFinish(false, r.0).1) <==> p.Some?)
      && (p.Some? ==> r.0 == d.(out := d.out + p.value))
  {
    DecodeIsWalk(false, d, text);
    SignificantHasNoSkips(text);
    WalkIsParse(d, Significant(text));
    hide Decode, Walk, Parse, Significant;
  }

  /**
   * The strict decoder stops at the first error and counts one; the tolerant one never does either, nor does
   * it fail at the end.  A finish keeps output and errors, and starts anew.
   */
  lemma {:induction false} ErrorsAreCounted(tolerant: bool, d: Decoder, text: seq<int>)
    ensures var r := Decode(tolerant, d, text);
      && r.0.errors == (if r.1 then d.errors else d.errors + 1)
      && (tolerant ==> r.1 && DecodeFinish(tolerant, r.0).1)
      && DecodeFinish(tolerant, r.0).0 == Decoder(r.0.out, 0, 0, r.0.errors)
    decreases |text|
  {
    if text != [] {
      hide Meant;
      var s := Step(tolerant, d, Meant(text[0]));
      if s.1 {
        ErrorsAreCounted(tolerant, s.0, text[1..]);
      }
    }
  }

  /** Where the strict decoder finds no error, the tolerant one gives the same. */
  lemma {:induction false} TolerantAgrees(d: Decoder, text: seq<int>)
    requires Decode(false, d, text).1
    ensures Decode(true, d, text) == Decode(false, d, text)
    decreases |text|
  {
    if text != [] {
      hide Meant;
      TolerantAgrees(Step(false, d, Meant(text[0])).0, text[1..]);
    }
  }

  /** What the reservation in z_code_base64_decode_transform provides for. */
  function Owed(phase: nat): nat {
    if phase == 1 then 3 else if phase == 2 then 2 else if phase == 3 then 1 else 0
  }

  lemma {:induction false} DecodeFits(tolerant: bool, d: Decoder, text: seq<int>)
    requires d.phase <= 4
    ensures var r := Decode(tolerant, d, text).0;
      && r.phase <= 4
      && 4 * (|r.out| - |d.out|) + Owed(r.phase) <= 3 * |text| + Owed(d.phase)
      && |r.out| <= |d.out| + (|text| * 3 + 3) / 4
    decreases |text|
  {
    if text != [] {
      hide Meant;
      var s := Step(tolerant, d, Meant(text[0]));
      if s.1 {
        DecodeFits(tolerant, s.0, text[1..]);
      }
    }
  }

  // ----- round trip -----

  lemma {:induction false} SignificantAdds(a: seq<int>, b: seq<int>)
    ensures Significant(a + b) == Significant(a) + Significant(b)
  {
    hide Meant;
    if a == [] {
      assert a + b == b;
    } else {
      assert (a + b)[1..] == a[1..] + b;
      SignificantAdds(a[1..], b);
    }
  }

  lemma {:induction false} ParseAdds(a: seq<Meaning>, b: seq<Meaning>)
    requires Parse(a).Some? && Parse(b).Some?
    ensures Parse(a + b) == Some(Parse(a).value + Parse(b).value)
  {
    hide Quantum;
    if a == [] {
      assert a + b == b;
      assert [] + Parse(b).value == Parse(b).value;
    } else {
      var c := a + b;
      assert c[4..] == a[4..] + b;
      assert c[0] == a[0] && c[1] == a[1] && c[2] == a[2] && c[3] == a[3];
      ParseAdds(a[4..], b);
      var q := Quantum(a[0], a[1], a[2], a[3]).value;
      assert q + (Parse(a[4..]).value + Parse(b).value) == q + Parse(a[4..]).value + Parse(b).value;
    }
  }

  lemma CrLfIsSkipped()
    ensures Significant(CRLF) == []
  {
    SignificantAdds([CR], [LF]);
    assert CRLF == [CR] + [LF];
  }

  /** Line breaks have no meaning. */
  lemma {:induction false} LinesAreSkipped(ll: nat, cs: seq<int>)
    ensures Significant(Lines(ll, cs)) == Significant(cs)
    decreases |cs|
  {
    if ll == 0 || cs == [] {
    } else {
      CrLfIsSkipped();
      hide Significant;
      if |cs| <= ll + 1 {
        SignificantAdds(cs, CRLF);
        assert Significant(cs) + [] == Significant(cs);
      } else {
        var a, b := cs[..ll + 1], cs[ll + 1..];
        LinesAreSkipped(ll, b);
        SignificantAdds(a + CRLF, Lines(ll, b));
        SignificantAdds(a, CRLF);
        SignificantAdds(a, b);
        assert a + b == cs;
        assert Significant(a) + [] == Significant(a);
      }
    }
  }

  lemma FourLetters(i: int, j: int, k: int, l: int)
    requires 0 <= i < 64 && 0 <= j < 64 && 0 <= k < 64 && 0 <= l < 64
    ensures Significant([Letter(i), Letter(j), Letter(k), Letter(l)]) == [Value(i), Value(j), Value(k), Value(l)]
    ensures Significant([Letter(i), Letter(j), Letter(k), PAD]) == [Value(i), Value(j), Value(k), Close]
    ensures Significant([Letter(i), Letter(j), PAD, PAD]) == [Value(i), Value(j), Close, Close]
  {
    AlphabetsAgree(i, Letter(i));
    AlphabetsAgree(j, Letter(j));
    AlphabetsAgree(k, Letter(k));
    AlphabetsAgree(l, Letter(l));
    assert Meant(PAD) == Close;
    hide Meant, Letter;
    FourSignificant(Letter(i), Letter(j), Letter(k), Letter(l));
    FourSignificant(Letter(i), Letter(j), Letter(k), PAD);
    FourSignificant(Letter(i), Letter(j), PAD, PAD);
  }

  lemma FourSignificant(a: int, b: int, c: int, d: int)
    requires Meant(a) != Skip && Meant(b) != Skip && Meant(c) != Skip && Meant(d) != Skip
    ensures Significant([a, b, c, d]) == [Meant(a), Meant(b), Meant(c), Meant(d)]
  {
    hide Meant;
    assert [a, b, c, d] == [a] + ([b] + ([c] + [d]));
    SignificantAdds([a], [b] + ([c] + [d]));
    SignificantAdds([b], [c] + [d]);
    SignificantAdds([c], [d]);
  }

  lemma ParseFour(w: Meaning, x: Meaning, y: Meaning, z: Meaning)
    requires Quantum(w, x, y, z).Some?
    ensures Parse([w, x, y, z]) == Quantum(w, x, y, z)
  {
    hide Quantum;
    assert [w, x, y, z][4..] == [];
    var q := Quantum(w, x, y, z).value;
    assert q + [] == q;
  }

  lemma ThreeBytes(a: int, b: int, c: int)
    requires 0 <= a < 256 && 0 <= b < 256 && 0 <= c < 256
    ensures Parse(Significant(Quad(a, b, c))) == Some([a, b, c])
  {
    var (i, j, k, l) := Sextets(a, b, c);
    assert Quad(a, b, c) == [Letter(i), Letter(j), Letter(k), Letter(l)];
    FourLetters(i, j, k, l);
    OctetsInvertSextets(a, b, c);
    assert Quantum(Value(i), Value(j), Value(k), Value(l)) == Some([a, b, c]);
    ParseFour(Value(i), Value(j), Value(k), Value(l));
  }

  lemma TwoBytes(a: int, b: int)
    requires 0 <= a < 256 && 0 <= b < 256
    ensures Parse(Significant(Base64([a, b]))) == Some([a, b])
  {
    var (i, j, k, _) := Sextets(a, b, 0);
    assert Base64([a, b]) == [Letter(i), Letter(j), Letter(k), PAD];
    FourLetters(i, j, k, 0);
    OctetsInvertSextets(a, b, 0);
    assert Quantum(Value(i), Value(j), Value(k), Close) == Some([a, b]);
    ParseFour(Value(i), Value(j), Value(k), Close);
  }

  lemma OneByte(a: int)
    requires 0 <= a < 256
    ensures Parse(Significant(Base64([a]))) == Some([a])
  {
    var (i, j, _, _) := Sextets(a, 0, 0);
    assert Base64([a]) == [Letter(i), Letter(j), PAD, PAD];
    FourLetters(i, j, 0, 0);
    OctetsInvertSextets(a, 0, 0);
    assert Quantum(Value(i), Value(j), Close, Close) == Some([a]);
    ParseFour(Value(i), Value(j), Close, Close);
  }

  /** The meaning of an encoding is what was encoded. */
  lemma {:induction false} ParseInvertsBase64(s: seq<int>)
    requires Bytes(s)
    ensures Parse(Significant(Base64(s))) == Some(s)
  {
    if |s| == 0 {
      assert s == [];
    } else if |s| == 1 {
      assert s == [s[0]];
      hide Base64;
      OneByte(s[0]);
    } else if |s| == 2 {
      assert s == [s[0], s[1]];
      hide Base64;
      TwoBytes(s[0], s[1]);
    } else {
      var q, rest := Quad(s[0], s[1], s[2]), s[3..];
      assert Base64(s) == q + Base64(rest);
      ParseInvertsBase64(rest);
      ThreeBytes(s[0], s[1], s[2]);
      hide Base64, Quad, Parse, Significant;
      SignificantAdds(q, Base64(rest));
      ParseAdds(Significant(q), Significant(Base64(rest)));
      assert s == [s[0], s[1], s[2]] + rest;
    }
  }

  /** The decoder's side of a stream: pieces of text, and draining in between. */
  datatype Use = Put(text: seq<int>) | Take(room: nat)

  /** Every piece is taken without an error, and this is what the caller has and what is left. */
  function Decoded(d: Decoder, taken: seq<int>, uses: seq<Use>): Option<(Decoder, seq<int>)>
    decreases |uses|
  {
    if uses == [] then Some((d, taken))
    else
      match uses[0]
      case Put(text) =>
        var (d1, ok) := Decode(false, d, text);
        if ok then Decoded(d1, taken, uses[1..]) else None
      case Take(room) =>
        var (got, rest) := Drained(d.out, room);
        Decoded(d.(out := rest), taken + got, uses[1..])
  }

  function Received(uses: seq<Use>): seq<int> {
    if uses == [] then []
    else (if uses[0].Put? then uses[0].text else []) + Received(uses[1..])
  }

  /** Stopping after `a` and going on is the same as not stopping. */
  lemma {:induction false} DecodeAdds(tolerant: bool, d: Decoder, a: seq<int>, b: seq<int>)
    ensures Decode(tolerant, d, a + b) ==
      var r := Decode(tolerant, d, a); if r.1 then Decode(tolerant, r.0, b) else r
    decreases |a|
  {
    if a == [] {
      assert a + b == b;
    } else {
      assert (a + b)[1..] == a[1..] + b;
      var s := Step(tolerant, d, Meant(a[0]));
      hide Meant, Step;
      if s.1 {
        DecodeAdds(tolerant, s.0, a[1..], b);
      }
    }
  }

  /** What is in front of the open byte does not matter to the decoder. */
  lemma {:induction false} OutputIsAppended(d: Decoder, front: seq<int>, text: seq<int>)
    ensures var r, f := Decode(false, d, text), Decode(false, d.(out := front + d.out), text);
      f == (r.0.(out := front + r.0.out), r.1)
    decreases |text|
  {
    if text != [] {
      var m := Meant(text[0]);
      hide Meant;
      StepAppends(d, front, m);
      var s := Step(false, d, m);
      hide Step;
      if s.1 {
        OutputIsAppended(s.0, front, text[1..]);
      }
    }
  }

  lemma StepAppends(d: Decoder, front: seq<int>, m: Meaning)
    ensures var s, f := Step(false, d, m), Step(false, d.(out := front + d.out), m);
      f == (s.0.(out := front + s.0.out), s.1)
  {
    if m.Value? && 1 <= d.phase != 4 {
      var v := m.bits;
      var b := if d.phase == 1 then d.partial + v / 16 else if d.phase == 2 then d.partial + v / 4 else d.partial + v;
      assert front + d.out + [b] == front + (d.out + [b]);
    }
  }

  /** The cuts in the text and the draining in between do not matter. */
  lemma {:induction false} UsesAreOneDecode(d: Decoder, taken: seq<int>, uses: seq<Use>)
    ensures var r, u := Decode(false, d.(out := taken + d.out), Received(uses)), Decoded(d, taken, uses);
      && (r.1 <==> u.Some?)
      && (u.Some? ==> r.0 == u.value.0.(out := u.value.1 + u.value.0.out))
    decreases |uses|
  {
    if uses != [] {
      var rest := uses[1..];
      match uses[0] {
        case Put(text) =>
          var r := Decode(false, d, text);
          assert Received(uses) == text + Received(rest);
          hide Decode, Received;
          DecodeAdds(false, d.(out := taken + d.out), text, Received(rest));
          OutputIsAppended(d, taken, text);
          if r.1 {
            UsesAreOneDecode(r.0, taken, rest);
          }
        case Take(room) =>
          var (got, left) := Drained(d.out, room);
          assert [] + Received(rest) == Received(rest);
          assert got + left == d.out;
          assert taken + got + left == taken + d.out;
          hide Decode, Received;
          UsesAreOneDecode(d.(out := left), taken + got, rest);
      }
    }
  }

  /** All that was fed to an encoder, `calls` ending with a finish. */
  function Inputs(calls: seq<Call>): seq<int> {
    if calls == [] then []
    else (if calls[0].Feed? then calls[0].data else []) + Inputs(calls[1..])
  }

  lemma {:induction false} TextMeansInputs(ll: nat, s: seq<int>, calls: seq<Call>)
    requires Bytes(s) && Bytes(Inputs(calls))
    ensures Parse(Significant(Text(ll, s, calls + [Finish]))) == Some(s + Inputs(calls))
    decreases |calls|
  {
    var all := calls + [Finish];
    if calls == [] {
      assert all == [Finish] && all[1..] == [];
      assert Text(ll, [], []) == [] by {
        assert Laid(ll, Emitted([])).text == [];
      }
      assert Text(ll, s, [Finish]) == Lines(ll, Base64(s));
      LinesAreSkipped(ll, Base64(s));
      ParseInvertsBase64(s);
      assert s + [] == s;
    } else {
      var rest := calls[1..];
      assert all[0] == calls[0] && all[1..] == rest + [Finish];
      BytesOfRest(calls);
      match calls[0] {
        case Feed(data) =>
          assert Inputs(calls) == data + Inputs(rest);
          hide Parse, Significant, Inputs, Lines, Base64;
          assert s + data + Inputs(rest) == s + (data + Inputs(rest));
          TextMeansInputs(ll, s + data, rest);
        case Take(_) =>
          assert Inputs(calls) == Inputs(rest);
          hide Parse, Significant, Inputs, Lines, Base64;
          TextMeansInputs(ll, s, rest);
        case Finish =>
          assert Inputs(calls) == Inputs(rest);
          hide Parse, Significant, Inputs, Lines, Base64;
          TextMeansInputs(ll, [], rest);
          assert [] + Inputs(rest) == Inputs(rest);
          LinesAreSkipped(ll, Base64(s));
          ParseInvertsBase64(s);
          var later := Text(ll, [], rest + [Finish]);
          SignificantAdds(Lines(ll, Base64(s)), later);
          ParseAdds(Significant(Lines(ll, Base64(s))), Significant(later));
      }
    }
  }

  lemma BytesOfRest(calls: seq<Call>)
    requires calls != [] && Bytes(Inputs(calls))
    ensures Bytes(Inputs(calls[1..])) && (calls[0].Feed? ==> Bytes(calls[0].data))
  {
    var data := if calls[0].Feed? then calls[0].data else [];
    var rest := Inputs(calls[1..]);
    assert Inputs(calls) == data + rest;
    hide Inputs;
    BytesOfParts(data, rest);
  }

  lemma BytesOfParts(a: seq<int>, b: seq<int>)
    requires Bytes(a + b)
    ensures Bytes(a) && Bytes(b)
  {
    assert forall i :: 0 <= i < |a| ==> a[i] == (a + b)[i];
    assert forall i :: 0 <= i < |b| ==> b[i] == (a + b)[|a| + i];
  }

  /**
   * Whatever bytes go through an encoder in any pieces, with any line length and any number of finishes,
   * if the text that comes out is given to a strict decoder in any other pieces, the caller draining
   * both in between as it likes: every piece is accepted, the finish succeeds, and what comes out is
   * what went in.
   */
  lemma RoundTrip(ll: nat, calls: seq<Call>, uses: seq<Use>)
    requires Bytes(Inputs(calls))
    requires var (e, taken) := Run(ll, FreshEncoder, [], calls + [Finish]); Received(uses) == taken + e.out
    ensures var r := Decoded(FreshDecoder, [], uses);
      && r.Some?
      && r.value.1 + r.value.0.out == Inputs(calls)
      && DecodeFinish(false, r.value.0).1
  {
    var text := Received(uses);
    hide Run, Text, Parse, Significant, Received, Inputs, Decode, Decoded;
    StreamingIsOneShot(ll, calls + [Finish]);
    TextMeansInputs(ll, [], calls);
    assert [] + Inputs(calls) == Inputs(calls);
    assert FreshDecoder.out == [] && [] + FreshDecoder.out == FreshDecoder.out;
    StrictDecodesExactlyEncodings(FreshDecoder, text);
    UsesAreOneDecode(FreshDecoder, [], uses);
  }
}
