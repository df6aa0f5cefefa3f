/** The URL parser of src/zurlparse.c as it runs: scanning loops, and fields filled in one by one. */
module UrlParser {
  import opened Sequences
  import opened TextScan
  import opened UrlParse
  import opened Wrappers

  /** What a part is followed by does not belong to the number in it. */
  lemma {:induction false} SpanStaysInside(a: string, b: string, kind: char -> bool)
    requires b == [] || !kind(b[0])
    ensures Span(a + b, kind) == Span(a, kind)
  {
    if a == [] {
      assert a + b == b;
    } else if kind(a[0]) {
      assert (a + b)[0] == a[0] && (a + b)[1..] == a[1..] + b;
      SpanStaysInside(a[1..], b, kind);
    } else {
      assert (a + b)[0] == a[0];
    }
  }

  lemma {:induction false} NumberStaysInside(a: string, b: string, acc: nat)
    requires b == [] || !Digit(b[0])
    ensures Number(a + b, acc) == Number(a, acc)
    decreases |a|
  {
    if a == [] {
      assert a + b == b;
    } else if Digit(a[0]) {
      assert (a + b)[0] == a[0] && (a + b)[1..] == a[1..] + b;
      NumberStaysInside(a[1..], b, acc * 10 + (a[0] as int - '0' as int));
    } else {
      assert (a + b)[0] == a[0];
    }
  }

  predicate Sign(c: char) {
    c == '-' || c == '+'
  }

  lemma SeparatorEndsNumber(c: char)
    requires Separator(c)
    ensures !Space(c) && !Digit(c) && !Sign(c)
  {}

  /** strtoul, told where the digits begin. */
  lemma StrtoulFrom(s: string, i: nat)
    requires i == Span(s, Space)
    ensures var signed := i < |s| && Sign(s[i]);
      var j := if signed then i + 1 else i;
      var n, m := Span(s[j..], Digit), Number(s[j..], 0);
      Strtoul(s) == if n == 0 then (0, 0)
        else (if m >= ULONG then ULONG - 1 else if signed && s[i] == '-' then (ULONG - m) % ULONG else m, j + n)
  {
    hide Span, Number, Space, Digit;
  }

  lemma FromSuffix(a: string, b: string, j: nat)
    requires j <= |a|
    ensures (a + b)[j..] == a[j..] + b
  {}

  lemma StrtoulStaysInside(a: string, b: string)
    requires b == [] || Separator(b[0])
    ensures Strtoul(a + b) == Strtoul(a)
  {
    hide Span, Number, Strtoul, Space, Digit, Sign, Separator;
    var s := a + b;
    if b != [] {
      SeparatorEndsNumber(b[0]);
    }
    SpanStaysInside(a, b, Space);
    var i := Span(a, Space);
    StrtoulFrom(a, i);
    StrtoulFrom(s, i);
    assert i < |a| ==> s[i] == a[i];
    assert i == |a| && i < |s| ==> s[i] == b[0];
    var j := if i < |a| && Sign(a[i]) then i + 1 else i;
    FromSuffix(a, b, j);
    SpanStaysInside(a[j..], b, Digit);
    NumberStaysInside(a[j..], b, 0);
  }

  class ZURL {
    var scheme: string
    var user: string
    var passwd: string
    var host: string
    var port: nat
    var file: string

    ghost function State(): Url
      reads this
    {
      Url(scheme, user, passwd, host, port, file)
    }

    /** z_url_init. */
    constructor ()
      ensures State() == Url([], [], [], [], 0, [])
    {
      scheme, user, passwd, host, port, file := [], [], [], [], 0, [];
    }

    /** g_string_assign_url_decode; `after` is the character behind the part, a separator or the final NUL. */
    static method UrlDecode(part: string, after: char) returns (text: Option<string>)
      requires !Hex(after)
      ensures text == Decode(part)
    {
      var dst := [];
      var src: nat := 0;
      var left := |part|;
      assert part[0..] == part;
      assert Decode(part).Some? ==> [] + Decode(part).value == Decode(part).value;
      while left != 0
        invariant 0 <= left && src + left == |part|
        invariant Decode(part) == Grown(dst, Decode(part[src..]))
        decreases left
      {
        ghost var rest, before := part[src..], dst;
        hide Decode, HexByte, Hex, Grown;
        var c := part[src];
        if c == '%' {
          DecodeEscape(rest, before);
          if left < 2 {
            return None;
          }
          var low := if left == 2 then after else part[src + 2];
          if !(Hex(part[src + 1]) && Hex(low)) {
            return None;
          }
          assert rest[3..] == part[src + 3..];
          c := HexByte(part[src + 1], low);
          src := src + 2;
          left := left - 2;
        } else {
          DecodePlain(rest, before);
          assert rest[1..] == part[src + 1..];
        }
        dst := dst + [c];
        src := src + 1;
        left := left - 1;
      }
      assert part[src..] == [] && dst + [] == dst;
      return Some(dst);
    }

    /** The loop that cuts the URL into parts. */
    static method Scan(s: string) returns (c: Cut)
      ensures c == CutUp(s, 4)
    {
      hide Scanned, CutUp, Span, Inside;
      var parts, seps, p := [], [], s;
      var i: nat := 0;
      ScanStarts(s);
      while i < 4
        invariant i <= 4 && |parts| == |seps|
        invariant CutUp(s, 4) == Scanned(parts, seps, p, 4 - i)
        decreases 4 - i
      {
        hide Scanned, CutUp, Span, Inside;
        var e := SpanOf(p, Inside);
        CutStep(p, 4 - i, e, parts, seps);
        if e == |p| || p[e] == '/' {
          return Cut(parts + [p[..e]], seps + [END], p[e..]);
        }
        parts := parts + [p[..e]];
        seps := seps + [p[e]];
        p := p[e + 1..];
        i := i + 1;
      }
      ScanEnds(parts, seps, p);
      return Cut(parts, seps, p);
    }

    /** The port number in a part that `after` follows. */
    static method ParsePort(part: string, after: string) returns (port: Option<nat>)
      requires after == [] || Separator(after[0])
      ensures port == Port(part)
    {
      StrtoulStaysInside(part, after);
      var (value, end) := Strtoul(part + after);
      return if end != |part| then None else Some(value % GUINT);
    }

    /** The scheme is what stands before "://". */
    static method FindScheme(s: string) returns (k: Option<nat>)
      ensures k == SchemeEnd(s)
    {
      var p := SpanOf(s, NotColon);
      if p == |s| {
        return None;
      }
      if p + 1 >= |s| || s[p + 1] != '/' || p + 2 >= |s| || s[p + 2] != '/' {
        return None;
      }
      return Some(p);
    }

    /** z_url_parse. */
    method ParseInto(urlStr: string) returns (outcome: Outcome)
      modifies this
      ensures outcome == Parse(urlStr)
      ensures outcome.Parsed? ==> State() == outcome.url
    {
      hide Assign, CutUp, SchemeEnd, Last;
      user, passwd, host, port, file := [], [], [], 0, [];
      scheme := [];
      var k := FindScheme(urlStr);
      if k.None? {
        return Failed;
      }
      scheme := urlStr[..k.value];
      var c := Scan(urlStr[k.value + 3..]);
      CutUpEnds(urlStr[k.value + 3..], 4);
      outcome := AssignParts(c);
      if outcome.Parsed? {
        AssignFile(scheme, c);
        file := if c.tail == [] then "/" else c.tail;
      }
    }

    /** The switch of z_url_parse: the fields except the file. */
    method AssignParts(c: Cut) returns (outcome: Outcome)
      requires |c.parts| == |c.seps| && c.parts != []
      requires Last(c) == END ==> c.tail == [] || c.tail[0] == END
      requires user == [] && passwd == [] && host == [] && port == 0
      modifies this`user, this`passwd, this`host, this`port
      ensures outcome == Assign(scheme, c)
      ensures outcome.Parsed? ==> State() == outcome.url.(file := file)
    {
      hide Decode, Port;
      var n, p := |c.parts|, c.parts;
      if c.seps[n - 1] != END {
        return Aborted;
      }
      var shape := c.seps[..n - 1];
      var u, w, h, d := Some([]), Some([]), None, Some(0);
      if n == 1 {
        h := UrlDecode(p[0], END);
      } else if n == 2 && c.seps[0] == ':' {
        h := UrlDecode(p[0], ':');
        d := ParsePort(p[1], c.tail);
      } else if n == 2 && c.seps[0] == '@' {
        u := UrlDecode(p[0], '@');
        h := UrlDecode(p[1], END);
      } else if n == 3 && c.seps[0] == '@' && c.seps[1] == ':' {
        u := UrlDecode(p[0], '@');
        h := UrlDecode(p[1], ':');
        d := ParsePort(p[2], c.tail);
      } else if n == 3 && c.seps[0] == ':' && c.seps[1] == '@' {
        u := UrlDecode(p[0], ':');
        w := UrlDecode(p[1], '@');
        h := UrlDecode(p[2], END);
      } else if n == 4 && c.seps[0] == ':' && c.seps[1] == '@' && c.seps[2] == ':' {
        u := UrlDecode(p[0], ':');
        w := UrlDecode(p[1], '@');
        h := UrlDecode(p[2], ':');
        d := ParsePort(p[3], c.tail);
      } else {
        return Failed;
      }
      outcome := Build(scheme, u, w, h, d, c.tail);
      if outcome.Parsed? {
        user, passwd, host, port := u.value, w.value, h.value, d.value;
      }
    }
  }

  /** A text with what is decoded of the rest. */
  function Grown(dst: string, rest: Option<string>): Option<string> {
    if rest.Some? then Some(dst + rest.value) else None
  }

  lemma DecodePlain(rest: string, dst: string)
    requires rest != [] && rest[0] != '%'
    ensures Grown(dst, Decode(rest)) == Grown(dst + [rest[0]], Decode(rest[1..]))
  {
    if Decode(rest[1..]).Some? {
      var more := Decode(rest[1..]).value;
      assert dst + ([rest[0]] + more) == dst + [rest[0]] + more;
    }
  }

  lemma DecodeEscape(rest: string, dst: string)
    requires rest != [] && rest[0] == '%'
    ensures Grown(dst, Decode(rest)) ==
      if |rest| < 3 || !Hex(rest[1]) || !Hex(rest[2]) then None
      else Grown(dst + [HexByte(rest[1], rest[2])], Decode(rest[3..]))
  {
    hide Hex, HexByte;
    if |rest| >= 3 && Hex(rest[1]) && Hex(rest[2]) {
      var later := Decode(rest[3..]);
      assert Decode(rest) == if later.Some? then Some([HexByte(rest[1], rest[2])] + later.value) else None;
      hide Decode;
      if later.Some? {
        Associate(dst, [HexByte(rest[1], rest[2])], later.value);
      }
    }
  }

  /** What is cut already, and what at most `n` parts of the rest will be. */
  function Scanned(parts: seq<string>, seps: string, p: string, n: nat): Cut {
    var c := CutUp(p, n);
    Cut(parts + c.parts, seps + c.seps, c.tail)
  }

  lemma ScanStarts(s: string)
    ensures CutUp(s, 4) == Scanned([], [], s, 4)
  {
    var c := CutUp(s, 4);
    assert [] + c.parts == c.parts && [] + c.seps == c.seps;
  }

  lemma ScanEnds(parts: seq<string>, seps: string, p: string)
    ensures Scanned(parts, seps, p, 0) == Cut(parts, seps, p)
  {
    assert parts + [] == parts && seps + [] == seps;
  }

  lemma CutStep(p: string, n: nat, e: nat, parts: seq<string>, seps: string)
    requires n > 0 && e == Span(p, Inside)
    ensures e <= |p|
    ensures Scanned(parts, seps, p, n) ==
      if e == |p| || p[e] == END then Cut(parts + [p[..e]], seps + [END], p[e..])
      else Scanned(parts + [p[..e]], seps + [p[e]], p[e + 1..], n - 1)
  {
    CutOnce(p, n, e);
    hide Span, CutUp;
    if e < |p| && p[e] != END {
      var rest := CutUp(p[e + 1..], n - 1);
      Associate(parts, [p[..e]], rest.parts);
      Associate(seps, [p[e]], rest.seps);
    }
  }

  lemma CutOnce(p: string, n: nat, e: nat)
    requires n > 0 && e == Span(p, Inside)
    ensures e <= |p|
    ensures CutUp(p, n) ==
      if e == |p| || p[e] == END then Cut([p[..e]], [END], p[e..])
      else
        var rest := CutUp(p[e + 1..], n - 1);
        Cut([p[..e]] + rest.parts, [p[e]] + rest.seps, rest.tail)
  {
    hide Span;
  }
}
