/** The text of a logspec, character by character, and the parts of the C library it relies on. */
module LogText {
  import opened LogSpec
  import opened TextScan
  import opened Wrappers

  // ----- dots -----

  function Joined(cs: seq<string>): string
    requires cs != []
  {
    if |cs| == 1 then cs[0] else cs[0] + "." + Joined(cs[1..])
  }

  /** The components are what stands between the dots. */
  lemma {:induction false} ComponentsAreBetweenDots(s: string)
    ensures Joined(Components(s)) == s
    ensures forall i :: 0 <= i < |Components(s)| ==> '.' !in Components(s)[i]
    decreases |s|
  {
    FirstComponent(s);
    var d := Dot(s);
    if d == |s| {
      assert Components(s) == [s];
      assert s[..|s|] == s;
    } else {
      var rest := Components(s[d + 1..]);
      ComponentsAreBetweenDots(s[d + 1..]);
      assert Components(s) == [s[..d]] + rest;
      hide Components, Dot;
      assert ([s[..d]] + rest)[1..] == rest;
      assert s == s[..d] + "." + s[d + 1..];
    }
  }

  // ----- numbers -----

  /** What isspace says of a character. */
  predicate White(c: char) {
    c == ' ' || 9 <= c as int <= 13
  }

  ghost predicate Digits(s: string) {
    s != [] && forall i :: 0 <= i < |s| ==> '0' <= s[i] <= '9'
  }

  /** How many characters stand before the digits, and whether they begin with a minus. */
  lemma Prefix(white: string, sign: string, rest: string)
    requires forall i :: 0 <= i < |white| ==> White(white[i])
    requires sign == "" || sign == "+" || sign == "-"
    requires sign == "" && rest != [] ==> rest[0] != '+' && rest[0] != '-' && !White(rest[0])
    ensures var s, i := white + (sign + rest), |white|;
      && Span(s, Space) == i
      && (sign == "" <==> i == |s| || (s[i] != '-' && s[i] != '+'))
      && (sign == "-" <==> i < |s| && s[i] == '-')
      && |white| + |sign| <= |s| && s[i + |sign|..] == rest
  {
    var tail := sign + rest;
    assert forall i :: 0 <= i < |white| ==> White(white[i]) && Space(white[i]);
    assert AllOf(white, Space);
    assert tail == [] || tail[0] == if sign == "" then rest[0] else sign[0];
    assert tail == [] || !Space(tail[0]);
    SpanIs(white, tail, Space);
    assert (white + tail)[|white| + |sign|..] == rest;
    hide Span;
  }

  /** What strtoul gives, by what stands where. */
  lemma StrtoulWith(s: string, white: nat, sign: string, rest: string, count: nat, n: nat)
    requires sign == "" || sign == "+" || sign == "-"
    requires white == Span(s, Space)
    requires sign == "" <==> white == |s| || (s[white] != '-' && s[white] != '+')
    requires sign == "-" <==> white < |s| && s[white] == '-'
    requires white + |sign| <= |s| && rest == s[white + |sign|..]
    requires count == Span(rest, Digit) && n == Number(rest, 0)
    ensures Strtoul(s) == if count == 0 then (0, 0) else (Converted(sign, n), white + |sign| + count)
  {
    hide Span, Number;
    assert sign != "" ==> |sign| == 1;
  }

  /** What is too large becomes the largest unsigned long; a minus subtracts from zero, modulo 2^64. */
  function Converted(sign: string, n: nat): int {
    if 0x1_0000_0000_0000_0000 <= n then 0xFFFF_FFFF_FFFF_FFFF
    else if sign == "-" && n != 0 then 0x1_0000_0000_0000_0000 - n
    else n
  }

  lemma DigitsAreCounted(s: string, k: nat)
    requires k <= |s| && Digits(s[..k]) && (k == |s| || !('0' <= s[k] <= '9'))
    ensures Span(s, Digit) == k && Number(s, 0) == Number(s[..k], 0)
    ensures s[0] != '+' && s[0] != '-' && !White(s[0])
  {
    var digits, t := s[..k], s[k..];
    assert s == digits + t;
    assert AllOf(digits, Digit);
    assert '0' <= digits[0] <= '9';
    SpanIs(digits, t, Digit);
    NumberAppends(digits, t, 0);
  }

  /** White space and a sign may stand before the digits. */
  lemma StrtoulOf(white: string, sign: string, s: string, k: nat)
    requires forall i :: 0 <= i < |white| ==> White(white[i])
    requires sign == "" || sign == "+" || sign == "-"
    requires k <= |s| && Digits(s[..k]) && (k == |s| || !('0' <= s[k] <= '9'))
    ensures Strtoul(white + (sign + s)) == (Converted(sign, Number(s[..k], 0)), |white| + |sign| + k)
  {
    assert s[..k] != [];
    hide *;
    DigitsAreCounted(s, k);
    StrtoulBehind(white, sign, s, k, Number(s[..k], 0));
  }

  lemma StrtoulBehind(white: string, sign: string, rest: string, count: nat, n: nat)
    requires forall i :: 0 <= i < |white| ==> White(white[i])
    requires sign == "" || sign == "+" || sign == "-"
    requires sign == "" && rest != [] ==> rest[0] != '+' && rest[0] != '-' && !White(rest[0])
    requires count == Span(rest, Digit) && n == Number(rest, 0)
    ensures Strtoul(white + (sign + rest)) == if count == 0 then (0, 0) else (Converted(sign, n), |white| + |sign| + count)
  {
    hide *;
    Prefix(white, sign, rest);
    StrtoulWith(white + (sign + rest), |white|, sign, rest, count, n);
  }

  /** Without digits nothing is read, not even the white space. */
  lemma NoNumber(white: string, sign: string, t: string)
    requires forall i :: 0 <= i < |white| ==> White(white[i])
    requires sign == "" || sign == "+" || sign == "-"
    requires t == [] || !('0' <= t[0] <= '9')
    requires sign == "" && t != [] ==> t[0] != '+' && t[0] != '-' && !White(t[0])
    ensures Strtoul(white + (sign + t)) == (0, 0)
  {
    assert Span(t, Digit) == 0;
    hide *;
    StrtoulBehind(white, sign, t, 0, Number(t, 0));
  }

  // ----- items -----

  /** Letters, digits, dots and stars. */
  ghost predicate Pattern(p: string) {
    forall i :: 0 <= i < |p| ==>
      'a' <= p[i] <= 'z' || 'A' <= p[i] <= 'Z' || '0' <= p[i] <= '9' || p[i] == '.' || p[i] == '*'
  }

  ghost predicate Separators(s: string) {
    forall i :: 0 <= i < |s| ==> s[i] == ',' || s[i] == ' '
  }

  /** Commas and blanks before an item do not matter. */
  lemma {:induction false} SeparatorsAreSkipped(separators: string, s: string)
    requires Separators(separators)
    ensures ParseItem(separators + s) == ParseItem(s)
    ensures s != [] ==> Parse(separators + s) == Parse(s)
  {
    hide Parse, ParseItem;
    if separators == [] {
      assert separators + s == s;
    } else {
      var c, more := separators[0], separators[1..];
      assert (c == ',' || c == ' ') && Separators(more);
      assert separators == [c] + more;
      hide *;
      SeparatorsAreSkipped(more, s);
      OneIsSkipped(c, more + s);
      assert [c] + more + s == [c] + (more + s);
    }
  }

  lemma OneIsSkipped(c: char, s: string)
    requires c == ',' || c == ' '
    ensures ParseItem([c] + s) == ParseItem(s)
    ensures s != [] ==> Parse([c] + s) == Parse(s)
  {
    hide ItemOf;
    var a := Span(s, Separator);
    assert ([c] + s)[1..] == s;
    assert Span([c] + s, Separator) == 1 + a;
    hide Span;
    assert ([c] + s)[1 + a..] == s[a..];
  }

  /**
   * A pattern, a colon and whatever strtoul makes of what follows is an item; the rest is ignored up to the
   * next comma.
   */
  lemma ItemIs(p: string, number: string, noise: string, t: string)
    requires Pattern(p) && (t == [] || t[0] == ',') && ',' !in noise
    requires Strtoul(number + (noise + t)).1 == |number|
    ensures ParseItem(p + (":" + (number + (noise + t)))) ==
      Some((Item(p, ToInt(Strtoul(number + (noise + t)).0)), t))
  {
    var rest := number + (noise + t);
    assert AllOf(p, PatternChar);
    NoiseIsIgnored(noise, t);
    AfterFront(number, noise + t);
    hide *;
    NoSeparators(p, ":" + rest);
    ItemWith(p, rest, |number|, t);
  }

  lemma ItemWith(p: string, rest: string, used: nat, t: string)
    requires AllOf(p, PatternChar) && Strtoul(rest).1 == used && ToComma(rest[used..]) == t
    ensures ItemOf(p + (":" + rest)) == Some((Item(p, ToInt(Strtoul(rest).0)), t))
  {
    SpanIs(p, ":" + rest, PatternChar);
    AroundColon(p, rest);
    hide Span, Strtoul, ToComma, PatternChar, AllOf, ToInt;
  }

  lemma NoiseIsIgnored(noise: string, t: string)
    requires (t == [] || t[0] == ',') && ',' !in noise
    ensures ToComma(noise + t) == t
  {
    assert AllOf(noise, NotComma);
    SpanIs(noise, t, NotComma);
  }

  /** Any other character in a pattern makes the text invalid. */
  lemma OtherCharactersAreInvalid(p: string, c: char, t: string)
    requires Pattern(p) && c != ':' && !Pattern([c]) && (p == [] ==> c != ',' && c != ' ')
    ensures ParseItem(p + ([c] + t)).None? && Parse(p + ([c] + t)).None?
  {
    var s := p + ([c] + t);
    assert AllOf(p, PatternChar);
    assert [c][0] == c;
    SpanIs(p, [c] + t, PatternChar);
    assert s[|p|] == c;
    assert s[0] == if p == [] then c else p[0];
    assert Span(s, Separator) == 0;
    hide Span, Strtoul, ToComma, ToInt;
    assert s[0..] == s;
  }
}
