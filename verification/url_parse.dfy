/**
 * The URL parser of src/zurlparse.c: a scheme, then up to four parts between separators, which are a
 * host with or without user, password and port, and the rest is the file.
 */
module UrlParse {
  import opened TextScan
  import opened Wrappers

  datatype Url = Url(scheme: string, user: string, passwd: string, host: string, port: nat, file: string)

  /** `Aborted` is g_assert_not_reached. */
  datatype Outcome = Parsed(url: Url) | Failed | Aborted

  // ----- percent encoding -----

  predicate Hex(c: char) {
    Digit(c) || 'a' <= c <= 'f' || 'A' <= c <= 'F'
  }

  /** z_url_xdigit_value. */
  function HexValue(c: char): (v: nat)
    requires Hex(c)
    ensures v < 16
  {
    if Digit(c) then c as int - '0' as int
    else if 'a' <= c <= 'f' then c as int - 'a' as int + 10
    else c as int - 'A' as int + 10
  }

  function HexByte(high: char, low: char): char
    requires Hex(high) && Hex(low)
  {
    (HexValue(high) * 16 + HexValue(low)) as char
  }

  /** g_string_assign_url_decode on a part of the URL. */
  function Decode(part: string): Option<string> {
    if part == [] then Some([])
    else if part[0] != '%' then
      var rest := Decode(part[1..]);
      if rest.Some? then Some([part[0]] + rest.value) else None
    else if |part| < 3 || !Hex(part[1]) || !Hex(part[2]) then None
    else
      var rest := Decode(part[3..]);
      if rest.Some? then Some([HexByte(part[1], part[2])] + rest.value) else None
  }

  // ----- cutting at separators -----

  predicate Separator(c: char) {
    c == ':' || c == '/' || c == '@' || c == '?' || c == '#'
  }

  predicate Inside(c: char) {
    !Separator(c)
  }

  predicate NotColon(c: char) {
    c != ':'
  }

  const END := '/'

  /** The parts, the separator behind each (END also for the end of the text), and what is left. */
  datatype Cut = Cut(parts: seq<string>, seps: string, tail: string)

  /** The loop over at most `n` parts. */
  function CutUp(s: string, n: nat): (c: Cut)
    ensures |c.parts| == |c.seps| <= n
    ensures n > 0 ==> c.parts != []
    decreases n
  {
    if n == 0 then Cut([], [], s)
    else
      var e := Span(s, Inside);
      if e == |s| || s[e] == END then Cut([s[..e]], [END], s[e..])
      else
        var rest := CutUp(s[e + 1..], n - 1);
        Cut([s[..e]] + rest.parts, [s[e]] + rest.seps, rest.tail)
  }

  const GUINT := 0x1_0000_0000

  /** strtoul on a part, to its end, cast to guint. */
  function Port(part: string): Option<nat> {
    var (v, used) := Strtoul(part);
    if used == |part| then Some(v % GUINT) else None
  }

  /** The switch over the number of parts. */
  function Assign(scheme: string, c: Cut): Outcome
    requires |c.parts| == |c.seps| && c.parts != []
  {
    var n, p := |c.parts|, c.parts;
    if c.seps[n - 1] != END then Aborted
    else if n == 1 then Build(scheme, Some([]), Some([]), Decode(p[0]), Some(0), c.tail)
    else if n == 2 && c.seps[0] == ':' then Build(scheme, Some([]), Some([]), Decode(p[0]), Port(p[1]), c.tail)
    else if n == 2 && c.seps[0] == '@' then Build(scheme, Decode(p[0]), Some([]), Decode(p[1]), Some(0), c.tail)
    else if n == 3 && c.seps[0] == '@' && c.seps[1] == ':' then
      Build(scheme, Decode(p[0]), Some([]), Decode(p[1]), Port(p[2]), c.tail)
    else if n == 3 && c.seps[0] == ':' && c.seps[1] == '@' then
      Build(scheme, Decode(p[0]), Decode(p[1]), Decode(p[2]), Some(0), c.tail)
    else if n == 4 && c.seps[0] == ':' && c.seps[1] == '@' && c.seps[2] == ':' then
      Build(scheme, Decode(p[0]), Decode(p[1]), Decode(p[2]), Port(p[3]), c.tail)
    else Failed
  }

  function Build(scheme: string, user: Option<string>, passwd: Option<string>, host: Option<string>, port: Option<nat>,
      tail: string): Outcome
  {
    if user.None? || passwd.None? || host.None? || port.None? then Failed
    else Parsed(Url(scheme, user.value, passwd.value, host.value, port.value, if tail == [] then "/" else tail))
  }

  /** Where the scheme ends, if "://" is there. */
  function SchemeEnd(s: string): (k: Option<nat>)
    ensures k.Some? ==> k.value + 2 < |s|
  {
    var k := Span(s, NotColon);
    if k + 2 < |s| && s[k + 1] == '/' && s[k + 2] == '/' then Some(k) else None
  }

  /** z_url_parse. */
  function Parse(s: string): Outcome {
    var k := SchemeEnd(s);
    if k.None? then Failed else Assign(s[..k.value], CutUp(s[k.value + 3..], 4))
  }

  // ----- what the parser never does, and when it aborts -----

  /** The number of separators before the first slash. */
  function Separators(s: string): nat {
    if s == [] || s[0] == END then 0 else (if Separator(s[0]) then 1 else 0) + Separators(s[1..])
  }

  lemma {:induction false} SeparatorsFrom(s: string)
    ensures var e := Span(s, Inside);
      Separators(s) == if e == |s| || s[e] == END then 0 else 1 + Separators(s[e + 1..])
  {
    if s != [] && Inside(s[0]) {
      SeparatorsFrom(s[1..]);
      var e := Span(s[1..], Inside);
      assert e < |s[1..]| ==> s[1..][e + 1..] == s[e + 2..];
    }
  }

  lemma CutUpOne(s: string, n: nat)
    requires n > 0
    ensures var e, c := Span(s, Inside), CutUp(s, n);
      if e == |s| || s[e] == END then |c.parts| == 1 && c.seps == [END] && c.tail == s[e..]
      else
        var rest := CutUp(s[e + 1..], n - 1);
        |c.parts| == 1 + |rest.parts| && c.seps == [s[e]] + rest.seps && c.tail == rest.tail
  {}

  /** The last separator. */
  function Last(c: Cut): char
    requires |c.parts| == |c.seps| && c.parts != []
  {
    c.seps[|c.seps| - 1]
  }

  lemma {:induction false} CutUpEnds(s: string, n: nat)
    requires n > 0
    ensures var c := CutUp(s, n);
      && (Last(c) != END <==> Separators(s) >= n)
      && (Last(c) == END ==> c.tail == [] || c.tail[0] == END)
    decreases n
  {
    hide Separators, CutUp, Span, Inside;
    SeparatorsFrom(s);
    CutUpOne(s, n);
    var e := Span(s, Inside);
    if e < |s| && s[e] != END {
      if n > 1 {
        CutUpEnds(s[e + 1..], n - 1);
        var rest := CutUp(s[e + 1..], n - 1);
        assert ([s[e]] + rest.seps)[|rest.seps|] == rest.seps[|rest.seps| - 1];
      }
    }
  }

  lemma AssignAborts(scheme: string, c: Cut)
    requires |c.parts| == |c.seps| && c.parts != []
    ensures Assign(scheme, c) == Aborted <==> Last(c) != END
  {
    hide Decode, Port;
  }

  lemma AssignFile(scheme: string, c: Cut)
    requires |c.parts| == |c.seps| && c.parts != [] && Assign(scheme, c).Parsed?
    ensures Last(c) == END && Assign(scheme, c).url.file == if c.tail == [] then "/" else c.tail
  {
    hide Decode, Port;
  }

  /** The parser aborts exactly on a URL with four separators between the scheme and the first slash. */
  lemma AbortsExactly(s: string)
    ensures Parse(s) == Aborted <==> SchemeEnd(s).Some? && Separators(s[SchemeEnd(s).value + 3..]) >= 4
  {
    hide Assign, CutUp, Separators, SchemeEnd, Last;
    var k := SchemeEnd(s);
    if k.Some? {
      CutUpEnds(s[k.value + 3..], 4);
      AssignAborts(s[..k.value], CutUp(s[k.value + 3..], 4));
    }
  }

  /** The file always begins with a slash: the check for another path is never met. */
  lemma FileIsAPath(s: string)
    requires Parse(s).Parsed?
    ensures Parse(s).url.file != [] && Parse(s).url.file[0] == '/'
  {
    hide Assign, CutUp, Separators, SchemeEnd, Last;
    var k := SchemeEnd(s).value;
    CutUpEnds(s[k + 3..], 4);
    AssignFile(s[..k], CutUp(s[k + 3..], 4));
  }

  // ----- encodings of a text -----

  /** One character of a text: as it is, or as two hexadecimal digits behind a percent sign. */
  datatype Piece = Plain(c: char) | Escaped(high: char, low: char)

  ghost predicate GoodPiece(p: Piece) {
    match p
    case Plain(c) => c != '%' && c != ':' && c != '/' && c != '@' && c != '?' && c != '#' && c != '\0'
    case Escaped(high, low) => Hex(high) && Hex(low)
  }

  ghost predicate GoodPieces(ps: seq<Piece>) {
    forall i :: 0 <= i < |ps| ==> GoodPiece(ps[i])
  }

  function Text(p: Piece): string {
    match p
    case Plain(c) => [c]
    case Escaped(high, low) => ['%', high, low]
  }

  /** An encoding of a text, written out. */
  function Encoded(ps: seq<Piece>): string {
    if ps == [] then [] else Text(ps[0]) + Encoded(ps[1..])
  }

  ghost function Meant(ps: seq<Piece>): string
    requires GoodPieces(ps)
  {
    if ps == [] then []
    else
      var rest := ps[1..];
      assert GoodPiece(ps[0]);
      assert forall i :: 0 <= i < |rest| ==> rest[i] == ps[i + 1];
      [if ps[0].Plain? then ps[0].c else HexByte(ps[0].high, ps[0].low)] + Meant(rest)
  }

  lemma {:induction false} DecodeInverts(ps: seq<Piece>)
    requires GoodPieces(ps)
    ensures Decode(Encoded(ps)) == Some(Meant(ps))
  {
    if ps != [] {
      var p, rest := ps[0], ps[1..];
      assert GoodPiece(p);
      assert forall i :: 0 <= i < |rest| ==> rest[i] == ps[i + 1];
      DecodeInverts(rest);
      DecodePiece(p, Encoded(rest));
    }
  }

  lemma DecodePiece(p: Piece, rest: string)
    requires GoodPiece(p)
    ensures Decode(Text(p) + rest) ==
      var r := Decode(rest);
      if r.None? then None else Some([if p.Plain? then p.c else HexByte(p.high, p.low)] + r.value)
  {
    var s := Text(p) + rest;
    if p.Plain? {
      assert s[1..] == rest;
    } else {
      assert s[3..] == rest;
    }
    hide HexByte, Hex;
  }

  lemma {:induction false} EncodedInside(ps: seq<Piece>)
    requires GoodPieces(ps)
    ensures AllOf(Encoded(ps), Inside)
  {
    if ps != [] {
      var rest := ps[1..];
      assert GoodPiece(ps[0]);
      assert forall i :: 0 <= i < |rest| ==> rest[i] == ps[i + 1];
      EncodedInside(rest);
      assert AllOf(Text(ps[0]), Inside);
    }
  }

  /** Every text of byte values has an encoding: its characters escaped one by one. */
  function EscapeAll(s: string): (ps: seq<Piece>)
    requires forall i :: 0 <= i < |s| ==> s[i] as int < 256
    ensures |ps| == |s|
  {
    if s == [] then [] else [Escaped(HexDigit(s[0] as int / 16), HexDigit(s[0] as int % 16))] + EscapeAll(s[1..])
  }

  function HexDigit(v: nat): (c: char)
    requires v < 16
    ensures Hex(c) && HexValue(c) == v
  {
    if v < 10 then ('0' as int + v) as char else ('A' as int + v - 10) as char
  }

  lemma {:induction false} EveryTextHasAnEncoding(s: string)
    requires forall i :: 0 <= i < |s| ==> s[i] as int < 256
    ensures GoodPieces(EscapeAll(s)) && Meant(EscapeAll(s)) == s
  {
    if s != [] {
      EveryTextHasAnEncoding(s[1..]);
      var ps, rest := EscapeAll(s), EscapeAll(s[1..]);
      assert forall i :: 0 <= i < |rest| ==> rest[i] == ps[i + 1];
      assert ps[1..] == rest;
      var v := s[0] as int;
      assert v / 16 * 16 + v % 16 == v;
      assert HexByte(ps[0].high, ps[0].low) == s[0];
    }
  }

  // ----- cutting and numbers -----

  /** A part with a separator behind it is cut off. */
  lemma CutPart(part: string, sep: char, rest: string, n: nat)
    requires AllOf(part, Inside) && Separator(sep) && sep != END && n > 0
    ensures var c := CutUp(rest, n - 1);
      CutUp(part + [sep] + rest, n) == Cut([part] + c.parts, [sep] + c.seps, c.tail)
  {
    var s := part + [sep] + rest;
    assert s == part + ([sep] + rest);
    SpanIs(part, [sep] + rest, Inside);
    assert s[..|part|] == part && s[|part|] == sep && s[|part| + 1..] == rest;
    hide Span, AllOf;
  }

  /** The last part ends at a slash or the end. */
  lemma CutLast(part: string, file: string, n: nat)
    requires AllOf(part, Inside) && (file == [] || file[0] == END) && n > 0
    ensures CutUp(part + file, n) == Cut([part], [END], file)
  {
    var s := part + file;
    SpanIs(part, file, Inside);
    assert s[..|part|] == part && s[|part|..] == file;
    hide Span, AllOf;
  }

  /** A number is read back, reduced to 32 bits. */
  lemma PortReads(n: nat)
    requires n < 0x1_0000_0000_0000_0000
    ensures Port(Decimal(n)) == Some(n % 0x1_0000_0000) && AllOf(Decimal(n), Inside)
  {
    var d := Decimal(n);
    hide Decimal, Strtoul, Number, AllOf;
    DecimalReads(n);
    DigitsAreInside(d);
    StrtoulReads(n, []);
    assert d + [] == d;
  }

  lemma DigitsAreInside(d: string)
    requires AllOf(d, Digit)
    ensures AllOf(d, Inside)
  {
    assert forall i :: 0 <= i < |d| ==> Digit(d[i]);
  }

  /** An encoded text is one part, and is decoded. */
  lemma PieceFacts(ps: seq<Piece>)
    requires GoodPieces(ps)
    ensures AllOf(Encoded(ps), Inside) && Decode(Encoded(ps)) == Some(Meant(ps))
  {
    EncodedInside(ps);
    DecodeInverts(ps);
  }

  lemma SchemeFound(scheme: string, rest: string)
    requires AllOf(scheme, NotColon)
    ensures var s := scheme + ("://" + rest);
      SchemeEnd(s) == Some(|scheme|) && s[..|scheme|] == scheme && s[|scheme| + 3..] == rest
  {
    var tail := "://" + rest;
    var s := scheme + tail;
    SpanIs(scheme, tail, NotColon);
    hide Span, AllOf;
    assert s[|scheme|] == tail[0] && s[|scheme| + 1] == tail[1] && s[|scheme| + 2] == tail[2];
  }

  /** An empty port is read as zero. */
  lemma EmptyPortIsZero()
    ensures Port("") == Some(0)
  {}
}
