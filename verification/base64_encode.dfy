/**
 * The streaming base64 coder of src/code_base64.c on values.
 *
 * The encoder and the decoder take their input in any pieces and let the caller drain any part of the
 * output at any time; the byte that is only half built waits behind the finished output.  `Base64`,
 * `Lines` and `Parse` are the one-shot meaning: section 4 of RFC 4648, with line breaks.
 */
module Base64Encode {
  import opened Arithmetic
  import opened Sequences

  const PAD: int := 61
  const CR: int := 13
  const LF: int := 10
  const CRLF: seq<int> := [CR, LF]

  // ----- the alphabet -----

  /** The table of z_code_base64_encode_fix, at the low six bits of a byte. */
  function Letter(byte: int): int {
    var v := byte % 64;
    if v < 26 then v + 65
    else if v < 52 then v - 26 + 97
    else if v < 62 then v - 52 + 48
    else if v == 62 then 43
    else 47
  }

  datatype Meaning = Value(bits: int) | Close | Skip | Illegal

  /** The table of z_code_base64_decode_transform. */
  function Meant(c: int): Meaning {
    if c == 9 || c == 10 || c == 13 || c == 32 then Skip
    else if c == PAD then Close
    else if 65 <= c <= 90 then Value(c - 65)
    else if 97 <= c <= 122 then Value(c - 97 + 26)
    else if 48 <= c <= 57 then Value(c - 48 + 52)
    else if c == 43 then Value(62)
    else if c == 47 then Value(63)
    else Illegal
  }

  lemma AlphabetsAgree(v: int, c: int)
    requires 0 <= v < 64
    ensures Meant(c) == Value(v) <==> c == Letter(v)
  {}

  // ----- the meaning of the encoding -----

  /** The sextets of three bytes; they have the same 24 bits. */
  function Sextets(a: int, b: int, c: int): (q: (int, int, int, int))
    ensures 0 <= a < 256 && 0 <= b < 256 && 0 <= c < 256 ==>
      && 0 <= q.0 < 64 && 0 <= q.1 < 64 && 0 <= q.2 < 64 && 0 <= q.3 < 64
      && ((q.0 * 64 + q.1) * 64 + q.2) * 64 + q.3 == (a * 256 + b) * 256 + c
  {
    (a / 4, a % 4 * 16 + b / 16, b % 16 * 4 + c / 64, c % 64)
  }

  function Quad(a: int, b: int, c: int): (q: seq<int>)
    ensures |q| == 4
  {
    var (i, j, k, l) := Sextets(a, b, c);
    [Letter(i), Letter(j), Letter(k), Letter(l)]
  }

  function Base64(s: seq<int>): seq<int> {
    if |s| == 0 then []
    else if |s| == 1 then Quad(s[0], 0, 0)[..2] + [PAD, PAD]
    else if |s| == 2 then Quad(s[0], s[1], 0)[..3] + [PAD]
    else Quad(s[0], s[1], s[2]) + Base64(s[3..])
  }

  /** Every line has `ll` + 1 characters, except that the last may be shorter; no lines if `ll` is zero. */
  function Lines(ll: nat, cs: seq<int>): seq<int>
    decreases |cs|
  {
    if ll == 0 || cs == [] then cs
    else if |cs| <= ll + 1 then cs + CRLF
    else cs[..ll + 1] + CRLF + Lines(ll, cs[ll + 1..])
  }

  // ----- the encoder -----

  /** `partial` is the byte behind the output, where it is in use. */
  datatype Encoder = Encoder(out: seq<int>, partial: int, phase: nat, linepos: nat)

  const FreshEncoder := Encoder([], 0, 0, 0)

  /** z_code_base64_encode_fix. */
  function Emit(ll: nat, e: Encoder, c: int): Encoder {
    if ll == 0 then e.(out := e.out + [c])
    else if e.linepos >= ll then e.(out := e.out + [c] + CRLF, linepos := 0)
    else e.(out := e.out + [c], linepos := e.linepos + 1)
  }

  /** The letter that byte `b` completes, with the bits `half` left over from the byte before. */
  function Completed(phase: nat, half: int, b: int): int {
    if phase == 0 then Letter(b / 4)
    else if phase == 1 then Letter(half + b / 16)
    else Letter(half + b / 64)
  }

  /** The bits of `b` that start the next letter. */
  function Left(phase: nat, b: int): int {
    if phase == 0 then b % 4 * 16 else if phase == 1 then b % 16 * 4 else b % 64
  }

  /** The loop body of z_code_base64_encode_transform. */
  function EncodeByte(ll: nat, e: Encoder, b: int): Encoder
    requires e.phase < 3
  {
    var e1 := Emit(ll, e, Completed(e.phase, e.partial, b));
    var rest := Left(e.phase, b);
    if e.phase < 2 then e1.(partial := rest, phase := e.phase + 1)
    else Emit(ll, e1, Letter(rest)).(partial := 0, phase := 0)
  }

  function Encode(ll: nat, e: Encoder, s: seq<int>): (r: Encoder)
    requires e.phase < 3
    ensures r.phase < 3
  {
    if s == [] then e else EncodeByte(ll, Encode(ll, e, s[..|s| - 1]), s[|s| - 1])
  }

  /** The mask of z_code_base64_encode_finish: the two or four bits that are set already. */
  function Kept(phase: nat, half: int): int {
    if phase == 1 then half / 16 % 4 * 16 else half / 4 % 16 * 4
  }

  /** The end of a group, padded. */
  function Padded(ll: nat, e: Encoder): Encoder {
    if e.phase == 1 then Emit(ll, Emit(ll, Emit(ll, e, Letter(Kept(e.phase, e.partial))), PAD), PAD)
    else if e.phase == 2 then Emit(ll, Emit(ll, e, Letter(Kept(e.phase, e.partial))), PAD)
    else e
  }

  /** z_code_base64_encode_finish. */
  function EncodeFinish(ll: nat, e: Encoder): Encoder {
    var p := Padded(ll, e);
    Encoder(if p.linepos != 0 then p.out + CRLF else p.out, 0, 0, 0)
  }

  // ----- what the encoder has emitted for an input that may go on -----

  /** The letters that `s` settles. */
  function Emitted(s: seq<int>): seq<int> {
    if |s| == 0 then []
    else if |s| == 1 then Quad(s[0], 0, 0)[..1]
    else if |s| == 2 then Quad(s[0], s[1], 0)[..2]
    else Quad(s[0], s[1], s[2]) + Emitted(s[3..])
  }

  /** The bits of the sextet that `s` leaves open. */
  function Half(s: seq<int>): int {
    if |s| == 0 then 0
    else if |s| == 1 then s[0] % 4 * 16
    else if |s| == 2 then s[1] % 16 * 4
    else Half(s[3..])
  }

  /** What byte `b` adds to the letters after `s`, by how many bytes of the group are there already. */
  function Settled(phase: nat, half: int, b: int): seq<int> {
    if phase < 2 then [Completed(phase, half, b)] else [Completed(phase, half, b), Letter(Left(phase, b))]
  }

  function Open(phase: nat, b: int): int {
    if phase < 2 then Left(phase, b) else 0
  }

  lemma GrowsFromZero(b: int)
    ensures Emitted([b]) == Emitted([]) + Settled(0, Half([]), b)
  {
    hide Letter;
  }

  lemma GrowsFromOne(a: int, b: int)
    ensures Emitted([a, b]) == Emitted([a]) + Settled(1, Half([a]), b)
  {
    hide Letter;
  }

  lemma GrowsFromTwo(a: int, b: int, c: int)
    ensures Emitted([a, b, c]) == Emitted([a, b]) + Settled(2, Half([a, b]), c)
  {
    hide Letter;
    assert [a, b, c][3..] == [];
  }

  lemma ShortGrows(s: seq<int>, b: int)
    requires |s| < 3
    ensures Emitted(s + [b]) == Emitted(s) + Settled(|s|, Half(s), b)
  {
    hide Emitted, Settled, Half;
    if |s| == 0 {
      assert s == [] && s + [b] == [b];
      GrowsFromZero(b);
    } else if |s| == 1 {
      assert s == [s[0]] && s + [b] == [s[0], b];
      GrowsFromOne(s[0], b);
    } else {
      assert s == [s[0], s[1]] && s + [b] == [s[0], s[1], b];
      GrowsFromTwo(s[0], s[1], b);
    }
  }

  lemma ShortHalf(s: seq<int>, b: int)
    requires |s| < 3
    ensures Half(s + [b]) == Open(|s|, b)
  {
    if |s| == 2 {
      assert (s + [b])[3..] == [];
    }
  }

  lemma {:induction false} HalfGrows(s: seq<int>, b: int)
    ensures Half(s + [b]) == Open(|s| % 3, b)
  {
    if |s| < 3 {
      ShortHalf(s, b);
    } else {
      hide Open;
      assert (s + [b])[3..] == s[3..] + [b];
      HalfGrows(s[3..], b);
    }
  }

  lemma EmittedFrom(s: seq<int>, b: int)
    requires |s| >= 3
    ensures Emitted(s + [b]) == Quad(s[0], s[1], s[2]) + Emitted(s[3..] + [b])
  {
    hide Quad;
    var t := s + [b];
    assert t[3..] == s[3..] + [b];
  }

  /** One more byte settles the letters that z_code_base64_encode_transform puts out for it. */
  lemma {:induction false} EmittedGrows(s: seq<int>, b: int)
    ensures Emitted(s + [b]) == Emitted(s) + Settled(|s| % 3, Half(s), b)
  {
    hide Quad, Settled, Left, Open;
    if |s| < 3 {
      ShortGrows(s, b);
    } else {
      EmittedFrom(s, b);
      EmittedGrows(s[3..], b);
      Associate(Quad(s[0], s[1], s[2]), Emitted(s[3..]), Settled(|s| % 3, Half(s), b));
    }
  }

  /** What completes a group that has `phase` bytes. */
  function Padding(phase: nat, half: int): seq<int> {
    if phase == 1 then [Letter(Kept(1, half)), PAD, PAD]
    else if phase == 2 then [Letter(Kept(2, half)), PAD]
    else []
  }

  lemma PaddingOfNone()
    ensures Base64([]) == Emitted([]) + Padding(0, Half([]))
  {}

  lemma PaddingOfOne(a: int)
    ensures Base64([a]) == Emitted([a]) + Padding(1, Half([a]))
  {
    hide Letter;
  }

  lemma PaddingOfTwo(a: int, b: int)
    ensures Base64([a, b]) == Emitted([a, b]) + Padding(2, Half([a, b]))
  {
    hide Letter;
  }

  lemma ShortPadding(s: seq<int>)
    requires |s| < 3
    ensures Base64(s) == Emitted(s) + Padding(|s|, Half(s))
  {
    hide Base64, Emitted, Padding, Half;
    if |s| == 0 {
      assert s == [];
      PaddingOfNone();
    } else if |s| == 1 {
      assert s == [s[0]];
      PaddingOfOne(s[0]);
    } else {
      assert s == [s[0], s[1]];
      PaddingOfTwo(s[0], s[1]);
    }
  }

  lemma LongEncoding(s: seq<int>)
    requires |s| >= 3
    ensures Base64(s) == Quad(s[0], s[1], s[2]) + Base64(s[3..])
    ensures Emitted(s) == Quad(s[0], s[1], s[2]) + Emitted(s[3..])
    ensures Half(s) == Half(s[3..])
  {
    hide Quad, Letter;
  }

  /** Padding what is open completes the encoding of section 4 of RFC 4648. */
  lemma {:induction false} PaddingCompletes(s: seq<int>)
    ensures Base64(s) == Emitted(s) + Padding(|s| % 3, Half(s))
  {
    if |s| < 3 {
      ShortPadding(s);
    } else {
      LongEncoding(s);
      assert |s| % 3 == (|s| - 3) % 3;
      hide *;
      PaddingCompletes(s[3..]);
      Associate(Quad(s[0], s[1], s[2]), Emitted(s[3..]), Padding(|s| % 3, Half(s)));
    }
  }

  // ----- line breaks -----

  datatype Layout = Layout(text: seq<int>, pos: nat)

  /** The text so far and the place in the line after emitting `cs` from the start of a line. */
  function Laid(ll: nat, cs: seq<int>): Layout {
    if cs == [] then Layout([], 0)
    else
      var l, c := Laid(ll, cs[..|cs| - 1]), cs[|cs| - 1];
      if ll == 0 then Layout(l.text + [c], l.pos)
      else if l.pos >= ll then Layout(l.text + [c] + CRLF, 0)
      else Layout(l.text + [c], l.pos + 1)
  }

  function Closed(l: Layout): seq<int> {
    if l.pos != 0 then l.text + CRLF else l.text
  }

  lemma {:induction false} ShortLine(ll: nat, cs: seq<int>)
    requires 0 < ll && |cs| <= ll + 1
    ensures Laid(ll, cs) == if |cs| == ll + 1 then Layout(cs + CRLF, 0) else Layout(cs, |cs|)
  {
    if cs != [] {
      ShortLine(ll, cs[..|cs| - 1]);
      assert cs == cs[..|cs| - 1] + [cs[|cs| - 1]];
    }
  }

  lemma {:induction false} LaidAfterABreak(ll: nat, a: seq<int>, b: seq<int>)
    requires Laid(ll, a).pos == 0
    ensures Laid(ll, a + b) == Layout(Laid(ll, a).text + Laid(ll, b).text, Laid(ll, b).pos)
  {
    if b == [] {
      assert a + b == a;
    } else {
      var front := b[..|b| - 1];
      LaidAfterABreak(ll, a, front);
      assert (a + b)[..|a + b| - 1] == a + front;
      assert Laid(ll, a).text + (Laid(ll, front).text + [b[|b| - 1]] + CRLF)
          == Laid(ll, a).text + Laid(ll, front).text + [b[|b| - 1]] + CRLF;
    }
  }

  lemma {:induction false} NoBreaks(cs: seq<int>)
    ensures Laid(0, cs) == Layout(cs, 0)
  {
    if cs != [] {
      NoBreaks(cs[..|cs| - 1]);
      assert cs == cs[..|cs| - 1] + [cs[|cs| - 1]];
    }
  }

  /** Counting characters and breaking after `ll` + 1 of them lays out `Lines`. */
  lemma {:induction false} LaidIsLines(ll: nat, cs: seq<int>)
    ensures Closed(Laid(ll, cs)) == Lines(ll, cs)
    decreases |cs|
  {
    if ll == 0 {
      NoBreaks(cs);
    } else if |cs| <= ll + 1 {
      ShortLine(ll, cs);
    } else {
      var line, rest := cs[..ll + 1], cs[ll + 1..];
      ShortLine(ll, line);
      LaidAfterABreak(ll, line, rest);
      LaidIsLines(ll, rest);
      assert cs == line + rest;
      assert line + CRLF + (Laid(ll, rest).text + CRLF) == line + CRLF + Laid(ll, rest).text + CRLF;
    }
  }

  // ----- the streaming encoder is the one-shot encoding -----

  /** What the encoder holds after `s`, the caller having taken `taken` in all, of which `done` is older. */
  ghost predicate Encoding(ll: nat, e: Encoder, taken: seq<int>, done: seq<int>, s: seq<int>) {
    && taken + e.out == done + Laid(ll, Emitted(s)).text
    && e.linepos == Laid(ll, Emitted(s)).pos
    && e.phase == |s| % 3
    && e.partial == Half(s)
  }

  /** The encoder's output and place in the line are those of the letters `cs`. */
  ghost predicate Holds(ll: nat, e: Encoder, taken: seq<int>, done: seq<int>, cs: seq<int>) {
    taken + e.out == done + Laid(ll, cs).text && e.linepos == Laid(ll, cs).pos
  }

  lemma Append(taken: seq<int>, out: seq<int>, done: seq<int>, text: seq<int>, more: seq<int>)
    requires taken + out == done + text
    ensures taken + (out + more) == done + (text + more)
  {
    assert taken + (out + more) == taken + out + more;
    assert done + (text + more) == done + text + more;
  }

  lemma EmitHolds(ll: nat, e: Encoder, taken: seq<int>, done: seq<int>, cs: seq<int>, c: int)
    requires Holds(ll, e, taken, done, cs)
    ensures Holds(ll, Emit(ll, e, c), taken, done, cs + [c])
  {
    assert (cs + [c])[..|cs|] == cs;
    var text := Laid(ll, cs).text;
    Append(taken, e.out, done, text, [c]);
    Append(taken, e.out + [c], done, text + [c], CRLF);
  }

  lemma EncodeByteKeeps(ll: nat, e: Encoder, taken: seq<int>, done: seq<int>, s: seq<int>, b: int)
    requires Encoding(ll, e, taken, done, s)
    ensures Encoding(ll, EncodeByte(ll, e, b), taken, done, s + [b])
  {
    EmittedGrows(s, b);
    HalfGrows(s, b);
    hide Emitted, Half, Laid, Letter, Completed, Left;
    var cs, c := Emitted(s), Completed(e.phase, e.partial, b);
    EmitHolds(ll, e, taken, done, cs, c);
    if e.phase == 2 {
      var d := Letter(Left(e.phase, b));
      EmitHolds(ll, Emit(ll, e, c), taken, done, cs + [c], d);
      assert cs + [c] + [d] == cs + [c, d];
    }
  }

  lemma {:induction false} EncodeKeeps(ll: nat, e: Encoder, taken: seq<int>, done: seq<int>, s: seq<int>, t: seq<int>)
    requires Encoding(ll, e, taken, done, s)
    ensures Encoding(ll, Encode(ll, e, t), taken, done, s + t)
  {
    assert e.phase < 3;
    hide Encoding, EncodeByte;
    if t == [] {
      assert s + t == s;
    } else {
      var front, b := t[..|t| - 1], t[|t| - 1];
      EncodeKeeps(ll, e, taken, done, s, front);
      var e1 := Encode(ll, e, front);
      assert Encode(ll, e, t) == EncodeByte(ll, e1, b);
      hide Encode;
      EncodeByteKeeps(ll, e1, taken, done, s + front, b);
      assert t == front + [b];
      Associate(s, front, [b]);
    }
  }

  /** Emitting the padding that `s` needs lays out all of `Base64(s)`. */
  lemma PadHolds(ll: nat, e: Encoder, taken: seq<int>, done: seq<int>, s: seq<int>)
    requires Encoding(ll, e, taken, done, s)
    ensures Holds(ll, Padded(ll, e), taken, done, Base64(s))
  {
    PaddingCompletes(s);
    var cs, all := Emitted(s), Base64(s);
    assert Holds(ll, e, taken, done, cs);
    hide Emitted, Half, Laid, Letter, Base64, Emit, Holds;
    if e.phase == 1 {
      var c := Letter(Kept(e.phase, e.partial));
      EmitHolds(ll, e, taken, done, cs, c);
      EmitHolds(ll, Emit(ll, e, c), taken, done, cs + [c], PAD);
      EmitHolds(ll, Emit(ll, Emit(ll, e, c), PAD), taken, done, cs + [c] + [PAD], PAD);
      assert cs + [c] + [PAD] + [PAD] == all;
    } else if e.phase == 2 {
      var c := Letter(Kept(e.phase, e.partial));
      EmitHolds(ll, e, taken, done, cs, c);
      EmitHolds(ll, Emit(ll, e, c), taken, done, cs + [c], PAD);
      assert cs + [c] + [PAD] == all;
    } else {
      assert cs == cs + [] == all;
    }
  }

  lemma FinishCompletes(ll: nat, e: Encoder, taken: seq<int>, done: seq<int>, s: seq<int>)
    requires Encoding(ll, e, taken, done, s)
    ensures Encoding(ll, EncodeFinish(ll, e), taken, done + Lines(ll, Base64(s)), [])
  {
    PadHolds(ll, e, taken, done, s);
    LaidIsLines(ll, Base64(s));
    var p, l := Padded(ll, e), Laid(ll, Base64(s));
    assert Laid(ll, Emitted([])) == Layout([], 0) && Half([]) == 0;
    hide Padded, Base64, Lines, Laid, Emitted, Half;
    if p.linepos != 0 {
      Append(taken, p.out, done, l.text, CRLF);
    }
    assert taken + EncodeFinish(ll, e).out == done + Lines(ll, Base64(s)) + [];
  }

  /** z_code_get_result: the caller takes up to `room` bytes; the open byte stays behind the rest. */
  function Drained(out: seq<int>, room: nat): (r: (seq<int>, seq<int>))
    ensures r.0 + r.1 == out && |r.0| <= room && (|r.0| < room ==> r.1 == [])
  {
    var n := Min(room, |out|);
    (out[..n], out[n..])
  }

  datatype Call = Feed(data: seq<int>) | Take(room: nat) | Finish

  /** Any use of one encoder: what the caller has taken, and the encoder, after `calls`. */
  function Run(ll: nat, e: Encoder, taken: seq<int>, calls: seq<Call>): (Encoder, seq<int>)
    requires e.phase < 3
    decreases |calls|
  {
    if calls == [] then (e, taken)
    else
      match calls[0]
      case Feed(data) => Run(ll, Encode(ll, e, data), taken, calls[1..])
      case Take(room) =>
        var (got, rest) := Drained(e.out, room);
        Run(ll, e.(out := rest), taken + got, calls[1..])
      case Finish => Run(ll, EncodeFinish(ll, e), taken, calls[1..])
  }

  /** The text that `calls` should amount to, `s` being what was fed since the last finish. */
  function Text(ll: nat, s: seq<int>, calls: seq<Call>): seq<int>
    decreases |calls|
  {
    if calls == [] then Laid(ll, Emitted(s)).text
    else
      match calls[0]
      case Feed(data) => Text(ll, s + data, calls[1..])
      case Take(_) => Text(ll, s, calls[1..])
      case Finish => Lines(ll, Base64(s)) + Text(ll, [], calls[1..])
  }

  lemma TakeKeeps(ll: nat, e: Encoder, taken: seq<int>, done: seq<int>, s: seq<int>, room: nat)
    requires Encoding(ll, e, taken, done, s)
    ensures var (got, rest) := Drained(e.out, room);
      Encoding(ll, e.(out := rest), taken + got, done, s)
  {
    hide Laid, Emitted, Half;
    var n := Min(room, |e.out|);
    assert taken + e.out[..n] + e.out[n..] == taken + e.out;
  }

  lemma {:induction false} RunIsText(ll: nat, e: Encoder, taken: seq<int>, done: seq<int>, s: seq<int>, calls: seq<Call>)
    requires Encoding(ll, e, taken, done, s) && e.phase < 3
    ensures var (e', taken') := Run(ll, e, taken, calls);
      taken' + e'.out == done + Text(ll, s, calls)
    decreases |calls|
  {
    if calls == [] {
      assert Encoding(ll, e, taken, done, s);
    } else {
      var rest := calls[1..];
      hide Encoding, Laid, Emitted, Half, Lines, Base64, Encode, Padded;
      match calls[0] {
        case Feed(data) =>
          EncodeKeeps(ll, e, taken, done, s, data);
          RunIsText(ll, Encode(ll, e, data), taken, done, s + data, rest);
        case Take(room) =>
          TakeKeeps(ll, e, taken, done, s, room);
          var (got, left) := Drained(e.out, room);
          RunIsText(ll, e.(out := left), taken + got, done, s, rest);
        case Finish =>
          FinishCompletes(ll, e, taken, done, s);
          RunIsText(ll, EncodeFinish(ll, e), taken, done + Lines(ll, Base64(s)), [], rest);
          Associate(done, Lines(ll, Base64(s)), Text(ll, [], rest));
      }
    }
  }

  /**
   * However the input is cut, wherever the caller drains and however often the encoder is reused, what
   * the caller took followed by what is left is the one-shot encoding of each finished input, in lines.
   */
  lemma StreamingIsOneShot(ll: nat, calls: seq<Call>)
    ensures var (e, taken) := Run(ll, FreshEncoder, [], calls);
      taken + e.out == Text(ll, [], calls)
  {
    assert Laid(ll, Emitted([])) == Layout([], 0) && Half([]) == 0;
    assert Encoding(ll, FreshEncoder, [], [], []);
    hide Encoding;
    RunIsText(ll, FreshEncoder, [], [], [], calls);
    var (e, taken) := Run(ll, FreshEncoder, [], calls);
    assert [] + Text(ll, [], calls) == Text(ll, [], calls);
  }

  /** One finished input, taken in one piece: the encoding in lines. */
  lemma OneShot(ll: nat, pieces: seq<seq<int>>)
    ensures Text(ll, [], Feeds(pieces) + [Finish]) == Lines(ll, Base64(Joined(pieces)))
  {
    FeedsThenFinish(ll, [], pieces);
    assert [] + Joined(pieces) == Joined(pieces);
  }

  function Feeds(pieces: seq<seq<int>>): seq<Call> {
    if pieces == [] then [] else [Feed(pieces[0])] + Feeds(pieces[1..])
  }

  function Joined(pieces: seq<seq<int>>): seq<int> {
    if pieces == [] then [] else pieces[0] + Joined(pieces[1..])
  }

  lemma {:induction false} FeedsThenFinish(ll: nat, s: seq<int>, pieces: seq<seq<int>>)
    ensures Text(ll, s, Feeds(pieces) + [Finish]) == Lines(ll, Base64(s + Joined(pieces)))
    decreases |pieces|
  {
    hide Lines, Base64;
    var calls := Feeds(pieces) + [Finish];
    if pieces == [] {
      assert calls == [Finish] && calls[1..] == [];
      assert s + Joined(pieces) == s;
      assert Text(ll, [], []) == [] by {
        assert Laid(ll, Emitted([])).text == [];
      }
      assert Text(ll, s, [Finish]) == Lines(ll, Base64(s)) + [];
    } else {
      assert calls[1..] == Feeds(pieces[1..]) + [Finish];
      FeedsThenFinish(ll, s + pieces[0], pieces[1..]);
      assert s + pieces[0] + Joined(pieces[1..]) == s + (pieces[0] + Joined(pieces[1..]));
    }
  }

  // ----- how much room the encoder needs -----

  /** z_code_calculate_growing. */
  function Growing(used: nat, n: nat, ll: nat): nat {
    var size := used + (n * 4 + 2) / 3;
    if ll == 0 then size else size + BreakRoom(ll, size)
  }

  /** What is provided for line breaks. */
  function BreakRoom(ll: nat, size: nat): nat
    requires 0 < ll
  {
    2 * (size + ll - 1) / ll
  }

  /** Line breaks while emitting `k` characters from place `pos` of a line. */
  function Breaks(ll: nat, pos: nat, k: nat): nat
    decreases k
  {
    if k == 0 || ll == 0 then 0
    else if pos >= ll then 1 + Breaks(ll, 0, k - 1)
    else Breaks(ll, pos + 1, k - 1)
  }

  lemma {:induction false} BreaksAre(ll: nat, pos: nat, k: nat)
    requires 0 < ll && pos <= ll
    ensures Breaks(ll, pos, k) * (ll + 1) <= pos + k < (Breaks(ll, pos, k) + 1) * (ll + 1)
    decreases k
  {
    if k == 0 {
      assert pos < 1 * (ll + 1);
    } else if pos >= ll {
      var b := Breaks(ll, 0, k - 1);
      BreaksAre(ll, 0, k - 1);
      assert (b + 1) * (ll + 1) == b * (ll + 1) + (ll + 1);
      assert (b + 2) * (ll + 1) == (b + 1) * (ll + 1) + (ll + 1);
    } else {
      BreaksAre(ll, pos + 1, k - 1);
    }
  }

  lemma {:induction false} BreaksAdd(ll: nat, pos: nat, j: nat, k: nat)
    requires pos <= ll || ll == 0
    ensures Breaks(ll, pos, j + k) == Breaks(ll, pos, j) + Breaks(ll, PosAfter(ll, pos, j), k)
    decreases j
  {
    if j != 0 && ll != 0 {
      BreaksAdd(ll, if pos >= ll then 0 else pos + 1, j - 1, k);
    }
  }

  function PosAfter(ll: nat, pos: nat, k: nat): nat
    decreases k
  {
    if k == 0 || ll == 0 then pos else PosAfter(ll, if pos >= ll then 0 else pos + 1, k - 1)
  }

  lemma {:induction false} PosAfterAdds(ll: nat, pos: nat, j: nat, k: nat)
    ensures PosAfter(ll, pos, j + k) == PosAfter(ll, PosAfter(ll, pos, j), k)
    ensures pos <= ll ==> PosAfter(ll, pos, j) <= ll
    decreases j
  {
    if j != 0 && ll != 0 {
      PosAfterAdds(ll, if pos >= ll then 0 else pos + 1, j - 1, k);
    }
  }

  /** How many characters `n` bytes give from a phase. */
  function Count(phase: nat, n: nat): nat {
    n + (n + phase) / 3
  }

  /** Exactly what a transform adds to the output, and where it leaves the line. */
  lemma {:induction false} TransformGrowth(ll: nat, e: Encoder, s: seq<int>)
    requires e.phase < 3 && (ll == 0 || e.linepos <= ll)
    ensures var r, k := Encode(ll, e, s), Count(e.phase, |s|);
      && |r.out| == |e.out| + k + 2 * Breaks(ll, e.linepos, k)
      && r.linepos == PosAfter(ll, e.linepos, k)
      && r.phase == (e.phase + |s|) % 3
  {
    if s != [] {
      var front, b := s[..|s| - 1], s[|s| - 1];
      TransformGrowth(ll, e, front);
      var r1, k1 := Encode(ll, e, front), Count(e.phase, |front|);
      var more := if r1.phase == 2 then 2 else 1;
      assert Count(e.phase, |s|) == k1 + more;
      hide Encode;
      PosAfterAdds(ll, e.linepos, k1, more);
      BreaksAdd(ll, e.linepos, k1, more);
      ByteGrowth(ll, r1, b);
    }
  }

  lemma ByteGrowth(ll: nat, e: Encoder, b: int)
    requires e.phase < 3 && (ll == 0 || e.linepos <= ll)
    ensures var r, k := EncodeByte(ll, e, b), if e.phase == 2 then 2 else 1;
      && |r.out| == |e.out| + k + 2 * Breaks(ll, e.linepos, k)
      && r.linepos == PosAfter(ll, e.linepos, k)
      && r.phase == (e.phase + 1) % 3
  {
    hide Completed, Letter, Left;
    EmitGrowth(ll, e, Completed(e.phase, e.partial, b));
    if e.phase == 2 {
      var e1 := Emit(ll, e, Completed(e.phase, e.partial, b));
      EmitGrowth(ll, e1, Letter(Left(e.phase, b)));
      BreaksAdd(ll, e.linepos, 1, 1);
      PosAfterAdds(ll, e.linepos, 1, 1);
    }
  }

  lemma EmitGrowth(ll: nat, e: Encoder, c: int)
    requires ll == 0 || e.linepos <= ll
    ensures var r := Emit(ll, e, c);
      && |r.out| == |e.out| + 1 + 2 * Breaks(ll, e.linepos, 1)
      && r.linepos == PosAfter(ll, e.linepos, 1) && (ll == 0 || r.linepos <= ll)
      && r.phase == e.phase && r.partial == e.partial
  {
    assert Breaks(ll, 0, 0) == 0 && Breaks(ll, e.linepos + 1, 0) == 0;
    assert PosAfter(ll, 0, 0) == 0 && PosAfter(ll, e.linepos + 1, 0) == e.linepos + 1;
  }

  lemma DivAtLeast(q: int, n: int, d: int)
    requires 0 < d && q * d <= n
    ensures q <= n / d
  {
    var m := n / d;
    assert n == m * d + n % d;
    assert (m + 1) * d == m * d + d;
    Monotone(m + 1, q, d);
  }

  lemma Monotone(a: int, b: int, d: int)
    requires 0 < d
    ensures a <= b ==> a * d <= b * d
  {}

  /** The breaks counted are no more than the breaks provided for. */
  lemma RoomForBreaks(ll: nat, q: nat, n: nat)
    requires 0 < ll && 0 < q && q * (ll + 1) <= ll + n
    ensures 2 * q <= 2 * (n + ll - 1) / ll
  {
    assert q * (ll + 1) == q * ll + q;
    assert 2 * q * ll == 2 * (q * ll);
    DivAtLeast(2 * q, 2 * (n + ll - 1), ll);
  }

  /** A transform fits what z_code_calculate_growing reserves for it. */
  lemma TransformFits(ll: nat, e: Encoder, s: seq<int>)
    requires e.phase < 3 && (ll == 0 || e.linepos <= ll)
    ensures |Encode(ll, e, s).out| <= Growing(|e.out|, |s|, ll)
  {
    TransformGrowth(ll, e, s);
    hide Encode;
    var k := Count(e.phase, |s|);
    var size := |e.out| + (|s| * 4 + 2) / 3;
    assert |e.out| + k <= size;
    hide Count;
    BreaksFit(ll, e.linepos, k, |e.out|, size);
  }

  lemma BreaksAreProvided(ll: nat, pos: nat, k: nat, size: nat)
    requires k <= size && 0 < ll && pos <= ll
    ensures 2 * Breaks(ll, pos, k) <= BreakRoom(ll, size)
  {
    BreaksAre(ll, pos, k);
    hide Breaks;
    var q := Breaks(ll, pos, k);
    if q != 0 {
      RoomForBreaks(ll, q, size);
    } else {
      DivAtLeast(0, 2 * (size + ll - 1), ll);
    }
  }

  lemma BreaksFit(ll: nat, pos: nat, k: nat, used: nat, size: nat)
    requires used + k <= size && (ll == 0 || pos <= ll)
    ensures used + k + 2 * Breaks(ll, pos, k) <= if ll == 0 then size else size + BreakRoom(ll, size)
  {
    if ll == 0 {
      assert Breaks(ll, pos, k) == 0;
    } else {
      BreaksAreProvided(ll, pos, k, size);
    }
  }

  /** The characters fill what is reserved for them, line breaks aside. */
  lemma CountFills(phase: nat, n: nat)
    requires phase < 3
    ensures Count(phase, n) <= (n * 4 + 2) / 3
    ensures Count(phase, n) == (n * 4 + 2) / 3 <==> phase == 2 || (phase == 1 && n % 3 != 1) || n % 3 == 0
  {
  }

  lemma BothOrNeither(used: int, k: int, room: int, breaks: int, more: int)
    requires k <= room && breaks <= more
    ensures used + k + breaks == used + room + more <==> k == room && breaks == more
  {
  }

  lemma QuotientIs(n: int, d: int, a: int)
    requires 0 < d
    ensures n / d == a <==> a * d <= n < a * d + d
  {
    var m := n / d;
    assert n == m * d + n % d;
    if a * d <= n < a * d + d {
      assert (m + 1) * d == m * d + d && (a + 1) * d == a * d + d;
      Monotone(m + 1, a, d);
      Monotone(a + 1, m, d);
    }
  }

  /** Where the next line break comes after `k` characters, and how many came before. */
  lemma BreaksAreQuotient(ll: nat, pos: nat, k: nat)
    requires 0 < ll && pos <= ll
    ensures Breaks(ll, pos, k) == (pos + k) / (ll + 1)
  {
    var q := Breaks(ll, pos, k);
    BreaksAre(ll, pos, k);
    hide Breaks;
    assert (q + 1) * (ll + 1) == q * (ll + 1) + (ll + 1);
    QuotientIs(pos + k, ll + 1, q);
  }

  /**
   * All the room for line breaks is used exactly if the bytes that were in the buffer before, the breaks, and
   * the places used on the last line and left on the first are together less than half a line.
   */
  lemma AllBreaksUsed(ll: nat, used: nat, pos: nat, k: nat)
    requires 0 < ll && pos <= ll
    ensures 2 * Breaks(ll, pos, k) == BreakRoom(ll, used + k) <==>
      2 * (used + (pos + k) / (ll + 1) + (pos + k) % (ll + 1) + (ll - pos)) < ll + 2
  {
    BreaksAreQuotient(ll, pos, k);
    BreaksAreProvided(ll, pos, k, used + k);
    var q, e := (pos + k) / (ll + 1), (pos + k) % (ll + 1);
    LinesAndRest(pos + k, ll, q, e);
    var m := 2 * (used + k + ll - 1);
    HalfALine(m, ll, q, m - 2 * (q * ll));
    assert BreakRoom(ll, used + k) == m / ll;
    hide *;
  }

  lemma LinesAndRest(n: nat, ll: nat, q: nat, e: nat)
    requires q == n / (ll + 1) && e == n % (ll + 1)
    ensures n == q * ll + q + e && e <= ll
  {
    assert n == q * (ll + 1) + e;
    assert q * (ll + 1) == q * ll + q;
  }

  lemma HalfALine(m: int, ll: nat, q: nat, t: int)
    requires 0 < ll && m == 2 * (q * ll) + t
    ensures m / ll == 2 * q <==> 0 <= t < ll
  {
    assert 2 * q * ll == 2 * (q * ll);
    QuotientIs(m, ll, 2 * q);
  }

  /**
   * The byte that is half built is not provided for: after a transform it lies behind all that is reserved
   * exactly if these phases meet these lengths, and either there are no lines or the lines are long enough for
   * what was in the buffer, the breaks, the place on the last line and what was left of the first.
   */
  lemma OpenByteDoesNotFit(ll: nat, e: Encoder, s: seq<int>)
    requires e.phase < 3 && (ll == 0 || e.linepos <= ll)
    ensures var r, k := Encode(ll, e, s), Count(e.phase, |s|);
      (r.phase != 0 && |r.out| == Growing(|e.out|, |s|, ll)) <==>
        && ((e.phase == 2 && |s| % 3 != 1) || (e.phase == 1 && |s| % 3 == 0))
        && (ll == 0 ||
            2 * (|e.out| + (e.linepos + k) / (ll + 1) + (e.linepos + k) % (ll + 1) + (ll - e.linepos)) < ll + 2)
  {
    hide BreakRoom, Encode;
    var k, room := Count(e.phase, |s|), (|s| * 4 + 2) / 3;
    var breaks, more := Breaks(ll, e.linepos, k), if ll == 0 then 0 else BreakRoom(ll, |e.out| + room);
    CountFills(e.phase, |s|);
    PhasesMeet(e.phase, |s|);
    TransformGrowth(ll, e, s);
    assert Growing(|e.out|, |s|, ll) == |e.out| + room + more;
    if ll == 0 {
      assert breaks == 0;
    } else {
      BreaksAreProvided(ll, e.linepos, k, |e.out| + room);
      AllBreaksUsed(ll, |e.out|, e.linepos, k);
    }
    hide *;
    BothOrNeither(|e.out|, k, room, 2 * breaks, more);
  }

  lemma PhasesMeet(phase: nat, n: nat)
    requires phase < 3
    ensures ((phase + n) % 3 != 0 && (phase == 2 || (phase == 1 && n % 3 != 1) || n % 3 == 0)) <==>
      ((phase == 2 && n % 3 != 1) || (phase == 1 && n % 3 == 0))
  {
  }

  /** Room for what is not provided for: one byte half built, and what finishing adds. */
  const SLACK := 8

  /** Finishing adds at most seven bytes to the output, for which nothing is reserved; and exactly when it is seven. */
  lemma FinishGrowth(ll: nat, e: Encoder)
    requires e.phase < 3 && (ll == 0 || e.linepos <= ll) && (ll == 0 ==> e.linepos == 0)
    ensures |EncodeFinish(ll, e).out| < |e.out| + SLACK
    ensures |EncodeFinish(ll, e).out| == |e.out| + 7 <==> e.phase == 1 && ll != 0 && ll <= e.linepos + 1
  {
    hide Letter;
  }

  /** One byte in lines of two characters is enough for seven. */
  lemma FinishCanAddSeven(b: int)
    ensures var e := Encode(1, FreshEncoder, [b]);
      |e.out| == 1 && |EncodeFinish(1, e).out| == |e.out| + 7
  {
    assert [b][..0] == [];
    FinishGrowth(1, Encode(1, FreshEncoder, [b]));
    hide EncodeFinish, Letter;
  }
}
