/**
 * Which texts src/zurlparse.c accepts: those of six shapes, written out, whose parts can be decoded, and no
 * others.
 */
module UrlShapes {
  import opened TextScan
  import opened UrlParse
  import opened Wrappers

  /** The text of a URL behind the scheme, cut into its parts. */
  datatype Shape = Shape(user: Option<string>, passwd: Option<string>, host: string, port: Option<string>, file: string)

  /** None of the characters that end a part. */
  ghost predicate Whole(part: string) {
    ':' !in part && '/' !in part && '@' !in part && '?' !in part && '#' !in part
  }

  ghost predicate Good(sh: Shape) {
    && Whole(sh.host)
    && (sh.user.Some? ==> Whole(sh.user.value))
    && (sh.passwd.Some? ==> Whole(sh.passwd.value) && sh.user.Some?)
    && (sh.port.Some? ==> Whole(sh.port.value))
    && (sh.file == "" || sh.file[0] == '/')
  }

  function Front(sh: Shape): string {
    if sh.user.None? then ""
    else if sh.passwd.None? then sh.user.value + "@"
    else sh.user.value + ":" + (if sh.passwd.Some? then sh.passwd.value else "") + "@"
  }

  function Back(sh: Shape): string {
    sh.host + (if sh.port.Some? then ":" + sh.port.value else "") + sh.file
  }

  function Written(scheme: string, sh: Shape): string {
    scheme + ("://" + (Front(sh) + Back(sh)))
  }

  /** What the parts come to: user, password and host decoded, the port a number; anything wrong is a failure. */
  function Reading(scheme: string, sh: Shape): Outcome {
    Build(scheme,
      if sh.user.Some? then Decode(sh.user.value) else Some(""),
      if sh.passwd.Some? then Decode(sh.passwd.value) else Some(""),
      Decode(sh.host),
      if sh.port.Some? then Port(sh.port.value) else Some(0),
      sh.file)
  }

  lemma WholeIsInside(part: string)
    ensures Whole(part) <==> AllOf(part, Inside)
  {
    if AllOf(part, Inside) {
      forall i | 0 <= i < |part|
        ensures part[i] != ':' && part[i] != '/' && part[i] != '@' && part[i] != '?' && part[i] != '#'
      {
        assert Inside(part[i]);
      }
    }
  }

  // ----- the characters -----

  const LOWER := "0123456789abcdef"
  const UPPER := "0123456789ABCDEF"

  /** The digits behind a percent sign, in both cases. */
  lemma HexDigitsAre(v: nat, c: char)
    requires v < 16
    ensures Hex(LOWER[v]) && Hex(UPPER[v]) && HexValue(LOWER[v]) == HexValue(UPPER[v]) == v
    ensures Hex(c) && HexValue(c) == v ==> c == LOWER[v] || c == UPPER[v]
  {}

  // ----- texts of these shapes are read as their parts -----

  /** What is cut out of host and port. */
  function BackCut(sh: Shape): Cut {
    if sh.port.Some? then Cut([sh.host, sh.port.value], [':', '/'], sh.file) else Cut([sh.host], ['/'], sh.file)
  }

  /** A part more in front. */
  function Before(part: string, sep: char, c: Cut): Cut {
    Cut([part] + c.parts, [sep] + c.seps, c.tail)
  }

  function AllCut(sh: Shape): Cut {
    if sh.user.None? then BackCut(sh)
    else if sh.passwd.None? then Before(sh.user.value, '@', BackCut(sh))
    else Before(sh.user.value, ':', Before(sh.passwd.value, '@', BackCut(sh)))
  }

  lemma CutBack(sh: Shape, n: nat)
    requires Good(sh) && n > 1
    ensures CutUp(Back(sh), n) == BackCut(sh)
  {
    WholeIsInside(sh.host);
    hide CutUp, AllOf, Inside, Whole;
    if sh.port.None? {
      assert Back(sh) == sh.host + sh.file;
      CutLast(sh.host, sh.file, n);
    } else {
      var port := sh.port.value;
      WholeIsInside(port);
      assert Back(sh) == sh.host + [':'] + (port + sh.file);
      CutPart(sh.host, ':', port + sh.file, n);
      CutLast(port, sh.file, n - 1);
      assert [sh.host] + [port] == [sh.host, port] && [':'] + ['/'] == [':', '/'];
    }
  }

  lemma CutShape(sh: Shape)
    requires Good(sh)
    ensures CutUp(Front(sh) + Back(sh), 4) == AllCut(sh)
  {
    hide CutUp, AllOf, Inside, Whole, Back, BackCut;
    if sh.user.None? {
      assert Front(sh) + Back(sh) == Back(sh);
      CutBack(sh, 4);
    } else {
      var user := sh.user.value;
      WholeIsInside(user);
      if sh.passwd.None? {
        assert Front(sh) + Back(sh) == user + ['@'] + Back(sh);
        CutPart(user, '@', Back(sh), 4);
        CutBack(sh, 3);
      } else {
        var passwd := sh.passwd.value;
        WholeIsInside(passwd);
        var more := passwd + ['@'] + Back(sh);
        assert Front(sh) + Back(sh) == user + [':'] + more;
        CutPart(user, ':', more, 4);
        CutPart(passwd, '@', Back(sh), 3);
        CutBack(sh, 2);
      }
    }
  }

  lemma AssignShape(scheme: string, sh: Shape)
    requires sh.passwd.Some? ==> sh.user.Some?
    ensures |AllCut(sh).parts| == |AllCut(sh).seps| && AllCut(sh).parts != []
    ensures Assign(scheme, AllCut(sh)) == Reading(scheme, sh)
  {
    hide Decode, Port, Build;
  }

  /** Every text of these shapes is read as what its parts come to. */
  lemma ShapeReads(scheme: string, sh: Shape)
    requires ':' !in scheme && Good(sh)
    ensures Parse(Written(scheme, sh)) == Reading(scheme, sh)
  {
    assert AllOf(scheme, NotColon);
    hide SchemeEnd, CutUp, Assign, Front, Back, AllCut, Reading, Good, AllOf;
    SchemeFound(scheme, Front(sh) + Back(sh));
    CutShape(sh);
    AssignShape(scheme, sh);
  }

  // ----- no other texts are accepted -----

  /** What was cut up. */
  function Glued(c: Cut): string
    requires |c.parts| == |c.seps|
    decreases |c.parts|
  {
    if c.parts == [] then c.tail
    else if |c.parts| == 1 && c.seps[0] == '/' then c.parts[0] + c.tail
    else c.parts[0] + ([c.seps[0]] + Glued(Cut(c.parts[1..], c.seps[1..], c.tail)))
  }

  ghost predicate AllWhole(parts: seq<string>) {
    forall i :: 0 <= i < |parts| ==> Whole(parts[i])
  }

  lemma GluedBefore(part: string, sep: char, c: Cut)
    requires |c.parts| == |c.seps| && sep != '/'
    ensures Glued(Before(part, sep, c)) == part + ([sep] + Glued(c))
    ensures Whole(part) && AllWhole(c.parts) ==> AllWhole(Before(part, sep, c).parts)
  {
    var all := Before(part, sep, c);
    assert all.parts[1..] == c.parts && all.seps[1..] == c.seps;
    hide Whole;
  }

  lemma GluedLast(part: string, tail: string)
    ensures Glued(Cut([part], ['/'], tail)) == part + tail
    ensures Whole(part) ==> AllWhole([part])
  {}

  lemma {:induction false} CutUpGlues(s: string, n: nat)
    ensures Glued(CutUp(s, n)) == s && AllWhole(CutUp(s, n).parts)
    decreases n
  {
    hide CutUp, Whole, Span, Glued, Before, AllWhole, Inside;
    if n == 0 {
      NoneIsCut(s);
    } else {
      var e := Span(s, Inside);
      FirstIsWhole(s);
      CutUpParts(s, n);
      if e < |s| && s[e] != '/' {
        CutUpGlues(s[e + 1..], n - 1);
        GluedBefore(s[..e], s[e], CutUp(s[e + 1..], n - 1));
        assert s == s[..e] + ([s[e]] + s[e + 1..]);
      } else {
        GluedLast(s[..e], s[e..]);
        assert s == s[..e] + s[e..];
      }
    }
  }

  lemma NoneIsCut(s: string)
    ensures Glued(CutUp(s, 0)) == s && AllWhole(CutUp(s, 0).parts)
  {}

  lemma FirstIsWhole(s: string)
    ensures Whole(s[..Span(s, Inside)])
  {
    SpanStops(s, Inside);
    hide Span;
    WholeIsInside(s[..Span(s, Inside)]);
  }

  lemma CutUpParts(s: string, n: nat)
    requires n > 0
    ensures var e := Span(s, Inside);
      CutUp(s, n) == if e == |s| || s[e] == '/' then Cut([s[..e]], ['/'], s[e..])
        else Before(s[..e], s[e], CutUp(s[e + 1..], n - 1))
  {
    hide Span;
  }

  /** The cuts that are assigned; another separator is a failure. */
  ghost predicate Assignable(c: Cut) {
    && |c.parts| == |c.seps| && c.parts != [] && Last(c) == '/'
    && (|| |c.parts| == 1
        || (|c.parts| == 2 && (c.seps[0] == ':' || c.seps[0] == '@'))
        || (|c.parts| == 3 && ((c.seps[0] == '@' && c.seps[1] == ':') || (c.seps[0] == ':' && c.seps[1] == '@')))
        || (|c.parts| == 4 && c.seps[0] == ':' && c.seps[1] == '@' && c.seps[2] == ':'))
  }

  lemma AssignedIsAssignable(scheme: string, c: Cut)
    requires |c.parts| == |c.seps| && c.parts != [] && Assign(scheme, c).Parsed?
    ensures Assignable(c)
  {
    hide Decode, Port, Build;
  }

  ghost function ShapeOf(c: Cut): Shape
    requires Assignable(c)
  {
    var p, file := c.parts, c.tail;
    if |p| == 1 then Shape(None, None, p[0], None, file)
    else if |p| == 2 && c.seps[0] == ':' then Shape(None, None, p[0], Some(p[1]), file)
    else if |p| == 2 then Shape(Some(p[0]), None, p[1], None, file)
    else if |p| == 3 && c.seps[0] == '@' then Shape(Some(p[0]), None, p[1], Some(p[2]), file)
    else if |p| == 3 then Shape(Some(p[0]), Some(p[1]), p[2], None, file)
    else Shape(Some(p[0]), Some(p[1]), p[2], Some(p[3]), file)
  }

  lemma ShapeIsCut(c: Cut)
    requires Assignable(c)
    ensures AllCut(ShapeOf(c)) == c
  {
    var p, seps := c.parts, c.seps;
    if |p| == 1 {
      assert p == [p[0]] && seps == ['/'];
    } else if |p| == 2 {
      assert p == [p[0], p[1]] && seps == [seps[0], '/'];
    } else if |p| == 3 {
      assert p == [p[0], p[1], p[2]] && seps == [seps[0], seps[1], '/'];
    } else {
      assert p == [p[0], p[1], p[2], p[3]] && seps == [':', '@', ':', '/'];
    }
  }

  lemma ShapeIsGood(c: Cut)
    requires Assignable(c) && AllWhole(c.parts) && (c.tail == [] || c.tail[0] == '/')
    ensures Good(ShapeOf(c))
  {
    hide Whole;
  }

  lemma ShapeGlues(sh: Shape)
    requires Good(sh)
    ensures |AllCut(sh).parts| == |AllCut(sh).seps| && Glued(AllCut(sh)) == Front(sh) + Back(sh)
  {
    CutShape(sh);
    CutUpGlues(Front(sh) + Back(sh), 4);
  }

  /** Every text that is accepted has one of the six shapes. */
  lemma AcceptedHasShape(s: string) returns (scheme: string, sh: Shape)
    requires Parse(s).Parsed?
    ensures ':' !in scheme && Good(sh) && s == Written(scheme, sh)
  {
    var k := SchemeEnd(s).value;
    scheme := s[..k];
    var rest := s[k + 3..];
    SchemeIs(s);
    CutUpGlues(rest, 4);
    CutUpEnds(rest, 4);
    hide Assign, CutUp, Whole, SchemeEnd, Front, Back, Good, Glued, AllWhole, ShapeOf, AllCut;
    var c := CutUp(rest, 4);
    AssignedIsAssignable(scheme, c);
    ShapeIsCut(c);
    ShapeIsGood(c);
    sh := ShapeOf(c);
    ShapeGlues(sh);
  }

  lemma SchemeIs(s: string)
    ensures SchemeEnd(s).Some? ==>
      var k := SchemeEnd(s).value;
      ':' !in s[..k] && s == s[..k] + ("://" + s[k + 3..])
  {
    SpanStops(s, NotColon);
    hide Span;
  }

  /** A text is accepted exactly if it has one of the shapes and all its parts can be read; it is then read as these. */
  lemma AcceptsExactly(s: string, url: Url)
    ensures Parse(s) == Parsed(url) <==>
      exists scheme, sh :: ':' !in scheme && Good(sh) && s == Written(scheme, sh) && Reading(scheme, sh) == Parsed(url)
  {
    if Parse(s) == Parsed(url) {
      var scheme, sh := AcceptedHasShape(s);
      ShapeReads(scheme, sh);
    }
    forall scheme, sh | ':' !in scheme && Good(sh) && s == Written(scheme, sh)
      ensures Parse(s) == Reading(scheme, sh)
    {
      ShapeReads(scheme, sh);
    }
  }

  // ----- decoding -----

  /** What can be decoded is an encoding of something. */
  lemma {:induction false} DecodedIsEncoding(part: string) returns (ps: seq<Piece>)
    requires Whole(part) && '\0' !in part && Decode(part).Some?
    ensures GoodPieces(ps) && Encoded(ps) == part
    decreases |part|
  {
    ps := [];
    if part != [] {
      var n := if part[0] == '%' then 3 else 1;
      var first := if part[0] == '%' then Escaped(part[1], part[2]) else Plain(part[0]);
      assert Whole(part[n..]) && '\0' !in part[n..];
      assert GoodPiece(first) && Text(first) == part[..n];
      var more := DecodedIsEncoding(part[n..]);
      ps := [first] + more;
      assert ps[1..] == more && part == part[..n] + part[n..];
      hide Encoded, GoodPiece, Decode, Whole;
      OneMorePiece(first, more);
    }
  }

  lemma OneMorePiece(first: Piece, more: seq<Piece>)
    requires GoodPiece(first) && GoodPieces(more)
    ensures GoodPieces([first] + more) && Encoded([first] + more) == Text(first) + Encoded(more)
  {
    assert ([first] + more)[1..] == more;
    hide GoodPiece, Text;
  }

  // ----- encodings and back -----

  /** Who and where: encodings of host, user and password, and a port; the password needs a user. */
  datatype Authority = Authority(user: Option<seq<Piece>>, passwd: Option<seq<Piece>>, host: seq<Piece>, port: Option<nat>)

  ghost predicate GoodAuthority(a: Authority) {
    && GoodPieces(a.host) && (a.user.Some? ==> GoodPieces(a.user.value)) && (a.passwd.Some? ==> GoodPieces(a.passwd.value))
    && (a.passwd.Some? ==> a.user.Some?) && (a.port.Some? ==> a.port.value < 0x1_0000_0000)
  }

  function EncodedShape(a: Authority, file: string): Shape {
    Shape(
      if a.user.Some? then Some(Encoded(a.user.value)) else None,
      if a.passwd.Some? then Some(Encoded(a.passwd.value)) else None,
      Encoded(a.host),
      if a.port.Some? then Some(Decimal(a.port.value)) else None,
      file)
  }

  ghost function UrlOf(scheme: string, a: Authority, file: string): Url
    requires GoodAuthority(a)
  {
    Url(scheme,
      if a.user.Some? then Meant(a.user.value) else [],
      if a.passwd.Some? then Meant(a.passwd.value) else [],
      Meant(a.host),
      if a.port.Some? then a.port.value else 0,
      if file == [] then "/" else file)
  }

  lemma PiecesAreWhole(ps: seq<Piece>)
    requires GoodPieces(ps)
    ensures Whole(Encoded(ps)) && Decode(Encoded(ps)) == Some(Meant(ps))
  {
    PieceFacts(ps);
    WholeIsInside(Encoded(ps));
    hide *;
  }

  lemma PortIsWhole(n: nat)
    requires n < 0x1_0000_0000
    ensures Whole(Decimal(n)) && Port(Decimal(n)) == Some(n)
  {
    hide *;
    PortReads(n);
    WholeIsInside(Decimal(n));
    Small(n);
  }

  lemma Small(n: nat)
    requires n < 0x1_0000_0000
    ensures n % 0x1_0000_0000 == n
  {}

  /**
   * A URL in one of the six shapes, its user, password and host encoded in any way, is parsed back to what
   * it was made of.
   */
  lemma UrlRoundTrip(scheme: string, a: Authority, file: string)
    requires GoodAuthority(a) && ':' !in scheme && (file == [] || file[0] == '/')
    ensures Parse(Written(scheme, EncodedShape(a, file))) == Parsed(UrlOf(scheme, a, file))
  {
    hide Parse, Written, Encoded, Decode, Meant, Decimal, Port, Whole, GoodPieces;
    PiecesAreWhole(a.host);
    if a.user.Some? {
      PiecesAreWhole(a.user.value);
    }
    if a.passwd.Some? {
      PiecesAreWhole(a.passwd.value);
    }
    if a.port.Some? {
      PortIsWhole(a.port.value);
    }
    ShapeReads(scheme, EncodedShape(a, file));
  }
}
