/** The coder of src/code.c and src/code_base64.c on its buffer: the C functions as methods. */
module Base64Coder {
  import D = Base64Decode
  import opened Arithmetic
  import opened Base64Encode

  /** ZCode.  The array is SLACK longer than what the C code asks for. */
  class ZCode {
    var buf: array<int>
    var bufLen: nat
    var bufUsed: nat
    var errorCounter: nat

    ghost predicate Valid()
      reads this
    {
      0 < bufLen && buf.Length == bufLen + SLACK && bufUsed < buf.Length
    }

    ghost function Contents(): seq<int>
      requires Valid()
      reads this, buf
    {
      buf[..bufUsed]
    }

    /** The byte that may be half built. */
    ghost function Behind(): int
      requires Valid()
      reads this, buf
    {
      buf[bufUsed]
    }

    /** z_code_init. */
    constructor (bufsize: int)
      ensures Valid() && fresh(buf) && Contents() == [] && errorCounter == 0
      ensures bufLen == if bufsize <= 0 then 256 else bufsize
    {
      var len := if bufsize <= 0 then BUFSIZE_DEFAULT else bufsize;
      bufLen := len;
      buf := new int[len + SLACK](_ => 0);
      bufUsed := 0;
      errorCounter := 0;
    }

    /** z_code_grow. */
    method Grow(reqlen: int)
      requires Valid()
      modifies this`buf, this`bufLen
      ensures Valid() && fresh(buf)
      ensures bufLen == Doubled(old(bufLen), reqlen)
      ensures exists k: nat :: bufLen == old(bufLen) * Pow2(k) && forall i: nat :: i < k ==> old(bufLen) * Pow2(i) < reqlen
      ensures reqlen <= bufLen
      ensures Contents() == old(Contents()) && Behind() == old(Behind())
    {
      ghost var k := DoubledIsLeast(bufLen, reqlen);
      var newlen := bufLen;
      while newlen < reqlen
        invariant 0 < bufLen <= newlen
        invariant Doubled(newlen, reqlen) == Doubled(bufLen, reqlen)
        decreases reqlen - newlen
      {
        newlen := newlen * 2;
      }
      var larger := new int[newlen + SLACK](_ => 0);
      forall i | 0 <= i < buf.Length {
        larger[i] := buf[i];
      }
      assert larger[..bufUsed] == buf[..bufUsed];
      buf := larger;
      bufLen := newlen;
    }

    /** z_code_get_result. */
    method GetResult(room: nat) returns (to: seq<int>)
      requires Valid()
      modifies this`bufUsed, buf
      ensures Valid() && (to, Contents()) == Drained(old(Contents()), room)
      ensures Behind() == old(Behind())
    {
      var res := if room < bufUsed then room else bufUsed;
      to := buf[..res];
      ghost var before, used := buf[..], bufUsed;
      assert before[..used] == buf[..used] && before[..used][..res] == to;
      if res > 0 {
        bufUsed := bufUsed - res;
        forall i | 0 <= i < bufUsed + 1 {
          buf[i] := buf[res + i];
        }
        assert buf[..bufUsed] == before[res..used] == before[..used][res..];
      }
    }

    /** A byte goes behind the others. */
    method Push(c: int)
      requires Valid() && bufUsed + 1 < buf.Length
      modifies this`bufUsed, buf
      ensures Valid() && Contents() == old(Contents()) + [c]
    {
      buf[bufUsed] := c;
      bufUsed := bufUsed + 1;
    }

    /** The byte that is half built. */
    method Leave(c: int)
      requires Valid()
      modifies buf
      ensures Valid() && Contents() == old(Contents()) && Behind() == c
    {
      buf[bufUsed] := c;
    }
  }

  const BUFSIZE_DEFAULT := 256

  lemma EmitIgnoresPartial(ll: nat, e: Encoder, f: Encoder, c: int)
    requires e.out == f.out && e.linepos == f.linepos
    ensures Emit(ll, e, c).out == Emit(ll, f, c).out && Emit(ll, e, c).linepos == Emit(ll, f, c).linepos
  {}

  class ZCodeBase64Encode {
    const code: ZCode
    const linelen: nat
    var phase: nat
    var linepos: nat

    ghost predicate Valid()
      reads this, code
    {
      && code.Valid() && phase < 3
      && (linelen == 0 || linepos <= linelen) && (linelen == 0 ==> linepos == 0)
      && (phase != 0 || linepos != 0 ==> code.bufUsed <= code.bufLen)
    }

    ghost function State(): Encoder
      requires code.Valid()
      reads this, code, code.buf
    {
      Encoder(code.Contents(), if phase == 0 then 0 else code.Behind(), phase, linepos)
    }

    constructor (bufsize: int, linelen: nat)
      ensures Valid() && fresh(code) && fresh(code.buf) && this.linelen == linelen && State() == FreshEncoder
    {
      code := new ZCode(bufsize);
      this.linelen := linelen;
      phase, linepos := 0, 0;
    }

    /** z_code_base64_encode_fix. */
    method Fix(closure: bool)
      requires code.Valid() && code.bufUsed + 3 < code.buf.Length
      modifies code`bufUsed, code.buf, this`linepos
      ensures code.Valid()
      ensures var c := if closure then PAD else Letter(old(code.Behind()));
        var e := Emit(linelen, old(State()), c);
        code.Contents() == e.out && linepos == e.linepos
      ensures code.bufUsed == old(code.bufUsed) + if linelen != 0 && old(linepos) >= linelen then 3 else 1
    {
      hide Letter;
      code.Push(if closure then PAD else Letter(code.buf[code.bufUsed]));
      if linelen != 0 {
        if linepos >= linelen {
          ghost var text := code.Contents();
          code.Push(CR);
          code.Push(LF);
          linepos := 0;
          assert code.Contents() == text + CRLF;
        } else {
          linepos := linepos + 1;
        }
      }
    }

    /** The byte behind the output becomes `whole`, and then a letter. */
    method Complete(whole: int)
      requires code.Valid() && code.bufUsed + 3 < code.buf.Length
      modifies code`bufUsed, code.buf, this`linepos
      ensures code.Valid() && code.bufUsed <= old(code.bufUsed) + 3
      ensures var e := Emit(linelen, old(State()), Letter(whole));
        code.Contents() == e.out && linepos == e.linepos
    {
      hide Letter;
      ghost var e := State();
      code.Leave(whole);
      EmitIgnoresPartial(linelen, e, State(), Letter(whole));
      hide Emit;
      Fix(false);
    }

    /** The loop body of z_code_base64_encode_transform; what is added to a half-built byte has other bits. */
    method TransformByte(b: int)
      requires Valid() && code.bufUsed <= code.bufLen
      modifies this`phase, this`linepos, code`bufUsed, code.buf
      ensures code.Valid() && State() == EncodeByte(linelen, old(State()), b)
      ensures code.bufLen == old(code.bufLen)
    {
      hide Letter;
      ghost var e := State();
      ghost var e1 := Emit(linelen, e, Completed(phase, e.partial, b));
      assert e1.phase == e.phase;
      hide Emit;
      if phase == 0 {
        Complete(b / 4);
        code.Leave(b % 4 * 16);
      } else if phase == 1 {
        Complete(code.buf[code.bufUsed] + b / 16);
        code.Leave(b % 16 * 4);
      } else {
        Complete(code.buf[code.bufUsed] + b / 64);
        EmitIgnoresPartial(linelen, e1, State(), Letter(b % 64));
        Complete(b % 64);
      }
      phase := (phase + 1) % 3;
    }

    /** z_code_base64_encode_transform. */
    method Transform(from: seq<int>) returns (ok: bool)
      requires Valid()
      modifies this`phase, this`linepos, code`buf, code`bufLen, code`bufUsed, code.buf
      ensures Valid() && ok && State() == Encode(linelen, old(State()), from)
      ensures fresh(code.buf) && code.bufLen == Doubled(old(code.bufLen), Growing(old(code.bufUsed), |from|, linelen))
    {
      ghost var before := State();
      code.Grow(Growing(code.bufUsed, |from|, linelen));
      ghost var len := code.bufLen;
      Fits(linelen, before, from, 0, len);
      for pos := 0 to |from|
        invariant Valid() && code.bufLen == len && fresh(code.buf)
        invariant State() == Encode(linelen, before, from[..pos])
        invariant code.bufUsed <= code.bufLen
      {
        TransformByte(from[pos]);
        Fits(linelen, before, from, pos + 1, len);
      }
      assert from[..|from|] == from;
      return true;
    }

    /** z_code_base64_encode_finish. */
    method Finish() returns (ok: bool)
      requires Valid()
      modifies this`phase, this`linepos, code`bufUsed, code.buf
      ensures Valid() && ok && State() == EncodeFinish(linelen, old(State()))
    {
      hide Letter;
      Pad();
      if linepos != 0 {
        ghost var text := code.Contents();
        code.Push(CR);
        code.Push(LF);
        assert code.Contents() == text + CRLF;
      }
      linepos := 0;
      phase := 0;
      return true;
    }

    /** The switch of z_code_base64_encode_finish. */
    method Pad()
      requires Valid()
      modifies this`linepos, code`bufUsed, code.buf
      ensures code.Valid() && code.bufLen == old(code.bufLen)
      ensures var p := Padded(linelen, old(State())); code.Contents() == p.out && linepos == p.linepos
      ensures linepos != 0 ==> code.bufUsed <= code.bufLen + 5
    {
      hide Letter;
      if phase == 1 {
        code.Leave(code.buf[code.bufUsed] / 16 % 4 * 16);
        assert code.Behind() == Kept(1, old(code.Behind()));
        Fix(false);
        Fix(true);
        Fix(true);
      } else if phase == 2 {
        code.Leave(code.buf[code.bufUsed] / 4 % 16 * 4);
        assert code.Behind() == Kept(2, old(code.Behind()));
        Fix(false);
        Fix(true);
      }
    }
  }

  class ZCodeBase64Decode {
    const code: ZCode
    const errorTolerant: bool
    var phase: nat

    ghost predicate Valid()
      reads this, code
    {
      code.Valid() && phase <= 4
    }

    ghost function State(): D.Decoder
      requires code.Valid()
      reads this, code, code.buf
    {
      D.Decoder(code.Contents(), if 1 <= phase <= 3 then code.Behind() else 0, phase, code.errorCounter)
    }

    constructor (bufsize: int, errorTolerant: bool)
      ensures Valid() && fresh(code) && fresh(code.buf) && this.errorTolerant == errorTolerant
      ensures State() == D.FreshDecoder
    {
      code := new ZCode(bufsize);
      this.errorTolerant := errorTolerant;
      phase := 0;
    }

    /** A value goes into the byte that is being built; what is added to it has other bits. */
    method Absorb(v: int)
      requires Valid() && phase != 4 && code.bufUsed + 1 < code.buf.Length
      modifies this`phase, code`bufUsed, code.buf
      ensures Valid() && State() == D.Absorb(old(State()), v)
    {
      if phase == 0 {
        code.Leave(v * 4);
      } else if phase == 1 {
        code.Push(code.buf[code.bufUsed] + v / 16);
        code.Leave(v % 16 * 16);
      } else if phase == 2 {
        code.Push(code.buf[code.bufUsed] + v / 4);
        code.Leave(v % 4 * 64);
      } else {
        code.Push(code.buf[code.bufUsed] + v);
      }
      phase := (phase + 1) % 4;
    }

    /** The loop body of z_code_base64_decode_transform. */
    method TransformByte(c: int) returns (ok: bool)
      requires Valid() && code.bufUsed + 1 < code.buf.Length
      modifies this`phase, code`bufUsed, code`errorCounter, code.buf
      ensures Valid() && (State(), ok) == D.Step(errorTolerant, old(State()), Meant(c))
    {
      var m := Meant(c);
      hide Meant, D.Absorb;
      if m.Skip? {
        return true;
      }
      if m.Close? {
        match phase {
          case 0 | 1 =>
            if !errorTolerant {
              code.errorCounter := code.errorCounter + 1;
              return false;
            }
          case 2 =>
            phase := 4;
          case _ =>
            phase := 0;
        }
        return true;
      }
      if m.Illegal? {
        if errorTolerant {
          return true;
        } else {
          code.errorCounter := code.errorCounter + 1;
          return false;
        }
      }
      if phase == 4 {
        if errorTolerant {
          phase := 0;
        } else {
          code.errorCounter := code.errorCounter + 1;
          return false;
        }
      }
      Absorb(m.bits);
      return true;
    }

    /** z_code_base64_decode_transform. */
    method Transform(from: seq<int>) returns (ok: bool)
      requires Valid()
      modifies this`phase, code`buf, code`bufLen, code`bufUsed, code`errorCounter, code.buf
      ensures Valid() && fresh(code.buf)
      ensures (State(), ok) == D.Decode(errorTolerant, old(State()), from)
      ensures code.bufLen == Doubled(old(code.bufLen), old(code.bufUsed) + (|from| * 3 + 3) / 4 + 16)
    {
      ghost var before := State();
      code.Grow(code.bufUsed + (|from| * 3 + 3) / 4 + 16);
      ghost var len := code.bufLen;
      assert from[0..] == from;
      for pos := 0 to |from|
        invariant Valid() && code.bufLen == len && fresh(code.buf)
        invariant D.Decode(errorTolerant, State(), from[pos..]) == D.Decode(errorTolerant, before, from)
        invariant 4 * (code.bufUsed - |before.out|) + D.Owed(phase) <= 3 * pos + D.Owed(before.phase)
      {
        hide Meant, D.Step;
        ghost var d := State();
        StepGrows(errorTolerant, d, Meant(from[pos]));
        var go := TransformByte(from[pos]);
        assert from[pos..][0] == from[pos] && from[pos..][1..] == from[pos + 1..];
        if !go {
          return false;
        }
      }
      return true;
    }

    /** z_code_base64_decode_finish. */
    method Finish() returns (ok: bool)
      requires Valid()
      modifies this`phase
      ensures Valid() && (State(), ok) == D.DecodeFinish(errorTolerant, old(State()))
    {
      if phase != 0 {
        phase := 0;
        return errorTolerant;
      }
      return true;
    }
  }

  lemma StepGrows(tolerant: bool, d: D.Decoder, m: Meaning)
    requires d.phase <= 4
    ensures var (r, _) := D.Step(tolerant, d, m);
      && r.phase <= 4
      && 4 * (|r.out| - |d.out|) + D.Owed(r.phase) <= 3 + D.Owed(d.phase)
  {}

  lemma Fits(ll: nat, e: Encoder, from: seq<int>, n: nat, len: nat)
    requires n <= |from| && e.phase < 3 && (ll == 0 || e.linepos <= ll) && (ll == 0 ==> e.linepos == 0)
    requires Growing(|e.out|, |from|, ll) <= len
    ensures var r := Encode(ll, e, from[..n]);
      |r.out| <= len && (ll == 0 || r.linepos <= ll) && (ll == 0 ==> r.linepos == 0)
    ensures 0 < n ==> Encode(ll, e, from[..n]) == EncodeByte(ll, Encode(ll, e, from[..n - 1]), from[n - 1])
  {
    TransformFits(ll, e, from[..n]);
    TransformGrowth(ll, e, from[..n]);
    GrowingGrows(|e.out|, n, |from|, ll);
    var k := Count(e.phase, n);
    PosAfterAdds(ll, e.linepos, k, 0);
    if 0 < n {
      assert from[..n][..n - 1] == from[..n - 1];
    }
    hide Growing, EncodeByte, Count, Breaks;
  }

  lemma GrowingGrows(used: nat, m: nat, n: nat, ll: nat)
    requires m <= n
    ensures Growing(used, m, ll) <= Growing(used, n, ll)
  {
    if ll != 0 {
      var a, b := 2 * (used + (m * 4 + 2) / 3 + ll - 1), 2 * (used + (n * 4 + 2) / 3 + ll - 1);
      assert a / ll * ll + a % ll == a;
      DivAtLeast(a / ll, b, ll);
    }
  }
}
