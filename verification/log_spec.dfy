/**
 * The logspec of src/log.c: patterns, the verbosity they give to a tag, and their textual form.
 */
module LogSpec {
  import opened TextScan
  import opened Wrappers

  datatype Item = Item(pattern: string, level: int)

  datatype Spec = Spec(items: seq<Item>, level: int)

  // ----- what a pattern means -----

  /** strchr for a dot: its first place, or the length. */
  function Dot(s: string): (k: nat)
    ensures k <= |s| && '.' !in s[..k] && (k < |s| ==> s[k] == '.')
  {
    if s == [] || s[0] == '.' then 0 else 1 + Dot(s[1..])
  }

  function Components(s: string): (cs: seq<string>)
    ensures cs != []
    decreases |s|
  {
    var d := Dot(s);
    if d == |s| then [s] else [s[..d]] + Components(s[d + 1..])
  }

  predicate Fits(glob: string, tag: string) {
    glob == "*" || glob == tag
  }

  /** The components of the pattern fit the first components of the tag. */
  ghost predicate PrefixFits(globs: seq<string>, tags: seq<string>) {
    |globs| <= |tags| && forall i :: 0 <= i < |globs| ==> Fits(globs[i], tags[i])
  }

  ghost predicate Matches(glob: string, tag: string) {
    PrefixFits(Components(glob), Components(tag))
  }

  lemma FitsOneMore(g: string, globs: seq<string>, t: string, tags: seq<string>)
    ensures PrefixFits([g] + globs, [t] + tags) <==> Fits(g, t) && PrefixFits(globs, tags)
  {
    var gs, ts := [g] + globs, [t] + tags;
    assert gs[0] == g && ts[0] == t;
    assert forall i :: 0 <= i < |globs| ==> gs[i + 1] == globs[i];
    assert forall i :: 0 <= i < |tags| ==> ts[i + 1] == tags[i];
    if Fits(g, t) && PrefixFits(globs, tags) {
      forall i | 0 <= i < |gs|
        ensures Fits(gs[i], ts[i])
      {
        if i > 0 {
          assert Fits(globs[i - 1], tags[i - 1]);
        }
      }
    }
    if PrefixFits(gs, ts) {
      forall i | 0 <= i < |globs|
        ensures Fits(globs[i], tags[i])
      {
        assert Fits(gs[i + 1], ts[i + 1]);
      }
    }
  }

  /** The components after the first. */
  function MoreComponents(s: string): seq<string> {
    if Dot(s) == |s| then [] else Components(s[Dot(s) + 1..])
  }

  lemma FirstComponent(s: string)
    ensures Components(s) == [s[..Dot(s)]] + MoreComponents(s)
    ensures MoreComponents(s) == [] <==> Dot(s) == |s|
  {
    assert s[..|s|] == s;
  }

  /** Comparing the first components says all, unless both go on. */
  lemma MatchesStep(glob: string, tag: string)
    ensures var d, e := Dot(glob), Dot(tag);
      Matches(glob, tag) <==>
        && Fits(glob[..d], tag[..e])
        && (d < |glob| ==> e < |tag| && Matches(glob[d + 1..], tag[e + 1..]))
  {
    var d, e := Dot(glob), Dot(tag);
    var globs, tags := MoreComponents(glob), MoreComponents(tag);
    FirstComponent(glob);
    FirstComponent(tag);
    FitsOneMore(glob[..d], globs, tag[..e], tags);
    MoreFit(glob, tag);
    hide Components, MoreComponents, Fits, Dot, PrefixFits;
  }

  lemma MoreFit(glob: string, tag: string)
    ensures var d, e := Dot(glob), Dot(tag);
      PrefixFits(MoreComponents(glob), MoreComponents(tag)) <==>
        (d < |glob| ==> e < |tag| && Matches(glob[d + 1..], tag[e + 1..]))
  {
    FirstComponent(glob);
    FirstComponent(tag);
    hide Components, Fits;
  }

  /** strchr. */
  method FindDot(s: string) returns (k: nat)
    ensures k == Dot(s)
  {
    k := 0;
    assert s[0..] == s;
    while k < |s| && s[k] != '.'
      invariant k <= |s|
      invariant Dot(s) == k + Dot(s[k..])
    {
      assert s[k..][1..] == s[k + 1..];
      k := k + 1;
    }
  }

  /** z_log_spec_glob_match: exactly the component-wise prefix match. */
  method GlobMatch(glob: string, tag: string) returns (matched: bool)
    ensures matched <==> Matches(glob, tag)
  {
    var g, t := glob, tag;
    var p1 := FindDot(g);
    var p2 := FindDot(t);
    while p1 < |g| && p2 < |t|
      invariant p1 == Dot(g) && p2 == Dot(t)
      invariant Matches(g, t) <==> Matches(glob, tag)
      decreases |g|
    {
      MatchesStep(g, t);
      hide Matches, Dot;
      if g[..p1] != "*" && g[..p1] != t[..p2] {
        return false;
      }
      g := g[p1 + 1..];
      t := t[p2 + 1..];
      p1 := FindDot(g);
      p2 := FindDot(t);
    }
    MatchesStep(g, t);
    hide Matches, Dot;
    if g[..p1] != "*" && g[..p1] != t[..p2] {
      return false;
    }
    return |g| - p1 <= |t| - p2;
  }

  // ----- what a spec means -----

  /** The verbosity of a tag: that of the first item whose pattern matches. */
  ghost function Eval(spec: Spec, tag: string): int {
    FirstMatch(spec.items, tag, spec.level)
  }

  ghost function FirstMatch(items: seq<Item>, tag: string, level: int): int {
    if items == [] then level
    else if Matches(items[0].pattern, tag) then items[0].level
    else FirstMatch(items[1..], tag, level)
  }

  /** z_log_spec_eval. */
  method EvalSpec(spec: Spec, tag: string) returns (level: int)
    ensures level == Eval(spec, tag)
  {
    var l := 0;
    assert spec.items[0..] == spec.items;
    while l < |spec.items|
      invariant l <= |spec.items|
      invariant FirstMatch(spec.items[l..], tag, spec.level) == Eval(spec, tag)
    {
      hide Matches;
      var m := GlobMatch(spec.items[l].pattern, tag);
      assert spec.items[l..][1..] == spec.items[l + 1..];
      if m {
        return spec.items[l].level;
      }
      l := l + 1;
    }
    return spec.level;
  }

  /** The item that decides is the first that matches; without one the default decides. */
  lemma {:induction false} FirstMatchDecides(items: seq<Item>, tag: string, level: int, i: nat)
    requires i <= |items|
    requires forall k :: 0 <= k < i ==> !Matches(items[k].pattern, tag)
    requires i < |items| ==> Matches(items[i].pattern, tag)
    ensures FirstMatch(items, tag, level) == if i < |items| then items[i].level else level
  {
    hide Matches;
    if i > 0 {
      assert forall k :: 0 <= k < i - 1 ==> items[1..][k] == items[k + 1];
      FirstMatchDecides(items[1..], tag, level, i - 1);
    }
  }

  /** No earlier item takes away the tags that this one is for. */
  ghost predicate Decides(items: seq<Item>, i: nat)
    requires i < |items|
  {
    forall j :: 0 <= j < i ==> !Matches(items[j].pattern, items[i].pattern)
  }

  /** Every item that decides anything has this level, and so has the default unless some item matches all tags. */
  ghost predicate OneLevel(spec: Spec, level: int) {
    && (forall i :: 0 <= i < |spec.items| && Decides(spec.items, i) ==> spec.items[i].level == level)
    && (spec.level == level || exists i :: 0 <= i < |spec.items| && spec.items[i].pattern == "*")
  }

  lemma MatchesItself(p: string)
    ensures Matches(p, p)
  {
    hide Components;
  }

  lemma MatchesThrough(p: string, q: string, tag: string)
    requires Matches(p, q) && Matches(q, tag)
    ensures Matches(p, tag)
  {
    hide Components;
    var ps, qs, ts := Components(p), Components(q), Components(tag);
    forall i | 0 <= i < |ps|
      ensures Fits(ps[i], ts[i])
    {
      assert Fits(ps[i], qs[i]) && Fits(qs[i], ts[i]);
    }
  }

  lemma StarMatches(tag: string)
    ensures Matches("*", tag)
  {
    assert Dot("*") == 1;
    MatchesStep("*", tag);
    assert "*"[..1] == "*";
  }

  /** A text without dots that is longer than the pattern. */
  function Longer(n: nat): (t: string)
    ensures |t| == n && Dot(t) == n
  {
    if n == 0 then [] else ['x'] + Longer(n - 1)
  }

  lemma TooLongToMatch(p: string, n: nat)
    requires |p| < n && p != "*"
    ensures !Matches(p, Longer(n))
  {
    var t := Longer(n);
    MatchesStep(p, t);
    assert t[..n] == t && p[..|p|] == p;
    hide Matches;
  }

  /** The first item from the k-th on that matches, or the end. */
  ghost function FirstMatching(items: seq<Item>, tag: string, k: nat): (i: nat)
    requires k <= |items|
    ensures k <= i <= |items|
    ensures forall j :: k <= j < i ==> !Matches(items[j].pattern, tag)
    ensures i < |items| ==> Matches(items[i].pattern, tag)
    decreases |items| - k
  {
    hide Matches;
    if k == |items| || Matches(items[k].pattern, tag) then k else FirstMatching(items, tag, k + 1)
  }

  /** Every item that is the first for the tag, so at most one, has the default level. */
  ghost predicate ByDefault(spec: Spec, tag: string) {
    forall i :: 0 <= i < |spec.items| && IsFirst(spec.items, tag, i) ==> spec.items[i].level == spec.level
  }

  ghost predicate IsFirst(items: seq<Item>, tag: string, i: nat)
    requires i < |items|
  {
    Matches(items[i].pattern, tag) && forall j :: 0 <= j < i ==> !Matches(items[j].pattern, tag)
  }

  lemma ByDefaultExactly(spec: Spec, tag: string)
    ensures Eval(spec, tag) == spec.level <==> ByDefault(spec, tag)
  {
    hide Matches;
    FirstMatchDecides(spec.items, tag, spec.level, FirstMatching(spec.items, tag, 0));
  }

  ghost function Longest(items: seq<Item>): (n: nat)
    ensures forall i :: 0 <= i < |items| ==> |items[i].pattern| <= n
  {
    if items == [] then 0
    else
      var n := Longest(items[1..]);
      assert forall i :: 0 < i < |items| ==> items[i] == items[1..][i - 1];
      if n < |items[0].pattern| then |items[0].pattern| else n
  }

  /** A spec gives one level to all tags exactly if every item that decides anything has it, and the default. */
  lemma OneLevelForAll(spec: Spec, level: int)
    ensures (forall tag :: Eval(spec, tag) == level) <==> OneLevel(spec, level)
  {
    hide Matches, FirstMatch;
    if OneLevel(spec, level) {
      forall tag
        ensures Eval(spec, tag) == level
      {
        GivesOneLevel(spec, level, tag);
      }
    }
    if forall tag :: Eval(spec, tag) == level {
      forall i | 0 <= i < |spec.items| && Decides(spec.items, i)
        ensures spec.items[i].level == level
      {
        MatchesItself(spec.items[i].pattern);
        FirstMatchDecides(spec.items, spec.items[i].pattern, spec.level, i);
        assert Eval(spec, spec.items[i].pattern) == level;
      }
      if spec.level != level {
        NotByDefault(spec, level);
      }
    }
  }

  lemma GivesOneLevel(spec: Spec, level: int, tag: string)
    requires OneLevel(spec, level)
    ensures Eval(spec, tag) == level
  {
    hide Matches, FirstMatch;
    var i := FirstMatching(spec.items, tag, 0);
    FirstMatchDecides(spec.items, tag, spec.level, i);
    if i < |spec.items| {
      forall j | 0 <= j < i
        ensures !Matches(spec.items[j].pattern, spec.items[i].pattern)
      {
        if Matches(spec.items[j].pattern, spec.items[i].pattern) {
          MatchesThrough(spec.items[j].pattern, spec.items[i].pattern, tag);
        }
      }
      assert Decides(spec.items, i);
    } else if spec.level != level {
      StarMatches(tag);
    }
  }

  /** Without a pattern for all tags there is one that only the default is for. */
  lemma NotByDefault(spec: Spec, level: int)
    requires spec.level != level && (forall tag :: Eval(spec, tag) == level)
    ensures exists i :: 0 <= i < |spec.items| && spec.items[i].pattern == "*"
  {
    hide Matches, FirstMatch;
    var tag := Longer(Longest(spec.items) + 1);
    var i := FirstMatching(spec.items, tag, 0);
    FirstMatchDecides(spec.items, tag, spec.level, i);
    assert Eval(spec, tag) == level;
    if spec.items[i].pattern != "*" {
      TooLongToMatch(spec.items[i].pattern, |tag|);
    }
  }

  // ----- the textual form -----

  /** isalnum, a dot or a star. */
  predicate PatternChar(c: char) {
    Digit(c) || 'a' <= c <= 'z' || 'A' <= c <= 'Z' || c == '.' || c == '*'
  }

  /** Conversion of an unsigned long to gint. */
  function ToInt(n: int): (i: int)
    ensures -0x8000_0000 <= i < 0x8000_0000 && (i - n) % 0x1_0000_0000 == 0
  {
    var low := n % 0x1_0000_0000;
    if low < 0x8000_0000 then low else low - 0x1_0000_0000
  }

  predicate Separator(c: char) {
    c == ',' || c == ' '
  }

  predicate NotComma(c: char) {
    c != ','
  }

  /** A pattern, a colon and a number: the item and the text after it, or nothing. */
  function ItemOf(s: string): (r: Option<(Item, string)>)
    ensures r.Some? ==> |r.value.1| < |s|
  {
    var b := Span(s, PatternChar);
    if b == |s| || s[b] != ':' then None
    else
      var rest := s[b + 1..];
      var (number, used) := Strtoul(rest);
      Some((Item(s[..b], ToInt(number)), ToComma(rest[used..])))
  }

  function ToComma(s: string): (r: string)
    ensures |r| <= |s|
  {
    s[Span(s, NotComma)..]
  }

  /** One item, behind any separators. */
  function ParseItem(s: string): (r: Option<(Item, string)>)
    ensures r.Some? ==> |r.value.1| < |s|
  {
    ItemOf(s[Span(s, Separator)..])
  }

  function Parse(s: string): Option<seq<Item>>
    decreases |s|
  {
    if s == [] then Some([])
    else
      var first := ParseItem(s);
      if first.None? then None
      else
        var rest := Parse(first.value.1);
        if rest.None? then None else Some([first.value.0] + rest.value)
  }

  /** The body of the loop of z_log_spec_init. */
  method ParseOne(src: string) returns (r: Option<(Item, string)>)
    ensures r == ParseItem(src)
  {
    hide Span, Strtoul, PatternChar;
    var a := SpanOf(src, Separator);
    var glob := src[a..];
    var b := SpanOf(glob, PatternChar);
    if b == |glob| || glob[b] != ':' {
      return None;
    }
    var num := glob[b + 1..];
    var (number, end) := Strtoul(num);
    var c := SpanOf(num[end..], NotComma);
    return Some((Item(glob[..b], ToInt(number)), num[end..][c..]));
  }

  /** z_log_spec_init; a null text is the empty one. */
  method SpecInit(text: string, level: int) returns (spec: Option<Spec>)
    ensures spec == if Parse(text).Some? then Some(Spec(Parse(text).value, level)) else None
  {
    hide ParseItem;
    var src := text;
    var items := [];
    assert Parse(text).Some? ==> items + Parse(text).value == Parse(text).value;
    while src != []
      invariant Parse(text) == if Parse(src).Some? then Some(items + Parse(src).value) else None
      decreases |src|
    {
      var one := ParseOne(src);
      if one.None? {
        return None;
      }
      Onward(items, one.value.0, one.value.1);
      items := items + [one.value.0];
      src := one.value.1;
    }
    assert Parse([]) == Some([]) && items + [] == items;
    return Some(Spec(items, level));
  }

  lemma Onward(done: seq<Item>, item: Item, rest: string)
    ensures Parse(rest).Some? ==> done + ([item] + Parse(rest).value) == done + [item] + Parse(rest).value
  {}

  // ----- printing and parsing back -----

  function Print(items: seq<Item>): string
    requires forall i :: 0 <= i < |items| ==> 0 <= items[i].level
  {
    if items == [] then []
    else
      var item := items[0].pattern + ":" + Decimal(items[0].level);
      if |items| == 1 then item else item + "," + Print(items[1..])
  }

  ghost predicate Printable(items: seq<Item>) {
    forall i :: 0 <= i < |items| ==> AllOf(items[i].pattern, PatternChar) && 0 <= items[i].level < 0x8000_0000
  }

  /** One separator in front of an item changes nothing. */
  lemma SkipsComma(s: string)
    ensures ParseItem("," + s) == ParseItem(s)
  {
    hide ItemOf;
    var a := Span(s, Separator);
    assert ("," + s)[1..] == s;
    assert Span("," + s, Separator) == 1 + a;
    hide Span;
    assert ("," + s)[1 + a..] == s[a..];
  }

  /** An item with a number of which `level` is what strtoul says. */
  lemma ItemAt(pattern: string, number: string, level: nat, t: string)
    requires AllOf(pattern, PatternChar) && (t == [] || t[0] == ',')
    requires Strtoul(number + t) == (level, |number|)
    ensures ItemOf(pattern + (":" + (number + t))) == Some((Item(pattern, ToInt(level)), t))
  {
    SpanIs(pattern, ":" + (number + t), PatternChar);
    ToCommaStops(t);
    AroundColon(pattern, number + t);
    AfterFront(number, t);
    hide Span, Strtoul, ToComma, PatternChar, AllOf;
  }

  lemma AroundColon(a: string, b: string)
    ensures var s := a + (":" + b);
      |a| < |s| && s[..|a|] == a && s[|a|] == ':' && s[|a| + 1..] == b
  {}

  lemma AfterFront(a: string, b: string)
    ensures (a + b)[|a|..] == b
  {}

  lemma ToCommaStops(t: string)
    requires t == [] || t[0] == ','
    ensures ToComma(t) == t
  {
    assert t[0..] == t;
  }

  lemma NoSeparators(pattern: string, tail: string)
    requires AllOf(pattern, PatternChar) && tail != [] && tail[0] == ':'
    ensures ParseItem(pattern + tail) == ItemOf(pattern + tail)
  {
    var s := pattern + tail;
    assert s[0] == if pattern == [] then ':' else pattern[0];
    assert pattern != [] ==> PatternChar(pattern[0]);
    assert Span(s, Separator) == 0;
    hide Span, ItemOf;
    assert s[0..] == s;
  }

  lemma SmallIsKept(n: nat)
    requires n < 0x8000_0000
    ensures ToInt(n) == n && n < ULONG
  {}

  lemma OneReads(item: Item, t: string)
    requires AllOf(item.pattern, PatternChar) && 0 <= item.level < 0x8000_0000 && (t == [] || t[0] == ',')
    ensures var s := item.pattern + (":" + (Decimal(item.level) + t));
      ParseItem(s) == Some((item, t)) && ParseItem("," + s) == Some((item, t))
  {
    var d := Decimal(item.level);
    var tail := ":" + (d + t);
    SmallIsKept(item.level);
    assert t == [] || !Digit(t[0]);
    hide *;
    StrtoulReads(item.level, t);
    assert tail[0] == ':';
    ItemAt(item.pattern, d, item.level, t);
    NoSeparators(item.pattern, tail);
    SkipsComma(item.pattern + tail);
  }

  lemma PrintableParts(items: seq<Item>)
    requires Printable(items) && items != []
    ensures Printable(items[1..])
    ensures AllOf(items[0].pattern, PatternChar) && 0 <= items[0].level < 0x8000_0000
  {
    var rest := items[1..];
    assert forall i :: 0 <= i < |rest| ==> rest[i] == items[i + 1];
  }

  lemma NothingReads()
    ensures Print([]) == [] && Parse([]) == Some([])
  {}

  lemma {:induction false} PrintReads(items: seq<Item>)
    requires Printable(items)
    ensures Parse(Print(items)) == Some(items)
    ensures items != [] ==> Parse("," + Print(items)) == Some(items)
    decreases |items|
  {
    hide Print, Printable, Decimal, Parse, ParseItem, AllOf, PatternChar;
    NothingReads();
    if items == [] {
    } else {
      var item, rest := items[0], items[1..];
      PrintableParts(items);
      PrintReads(rest);
      PrintOne(items);
      var t := if rest == [] then [] else "," + Print(rest);
      assert Parse(t) == Some(rest);
      OneReads(item, t);
      var s := item.pattern + (":" + (Decimal(item.level) + t));
      ParseFirst(s, item, t, rest);
      ParseFirst("," + s, item, t, rest);
      assert [item] + rest == items;
    }
  }

  lemma ParseFirst(s: string, item: Item, t: string, rest: seq<Item>)
    requires s != [] && ParseItem(s) == Some((item, t)) && Parse(t) == Some(rest)
    ensures Parse(s) == Some([item] + rest)
  {
    hide ParseItem;
  }

  lemma PrintOne(items: seq<Item>)
    requires items != [] && Printable(items)
    ensures var rest := items[1..];
      Print(items) == items[0].pattern + (":" + (Decimal(items[0].level) + if rest == [] then [] else "," + Print(rest)))
  {
    hide Decimal;
    var p, d := items[0].pattern, Decimal(items[0].level);
    var t := if |items| == 1 then [] else "," + Print(items[1..]);
    assert p + ":" + d + t == p + (":" + (d + t));
    assert p + ":" + d == p + ":" + d + [];
  }

  /** Every list of items is read back from its text; the default comes from elsewhere. */
  lemma SpecRoundTrip(items: seq<Item>)
    requires Printable(items)
    ensures Parse(Print(items)) == Some(items)
  {
    PrintReads(items);
  }

  /** A comma needs an item behind it: after any spec at all, a last comma makes the text invalid. */
  lemma {:induction false} LastCommaIsInvalid(s: string)
    requires EndsInComma(s)
    ensures Parse(s).None?
    decreases |s|
  {
    CommaStays(s);
    hide ParseItem, EndsInComma;
    if ParseItem(s).Some? {
      LastCommaIsInvalid(ParseItem(s).value.1);
    }
  }

  ghost predicate EndsInComma(s: string) {
    s != [] && s[|s| - 1] == ','
  }

  lemma ToCommaLeavesComma(s: string)
    requires EndsInComma(s)
    ensures EndsInComma(ToComma(s))
  {
    SpanStops(s, NotComma);
    assert Span(s, NotComma) < |s|;
    hide Span;
  }

  /** An item in front of a last comma leaves the comma. */
  lemma CommaStays(s: string)
    requires EndsInComma(s)
    ensures ParseItem(s).Some? ==> EndsInComma(ParseItem(s).value.1)
  {
    hide ToComma, Strtoul, Span;
    var a := Span(s, Separator);
    var s1 := s[a..];
    if ItemOf(s1).Some? {
      var b := Span(s1, PatternChar);
      var rest := s1[b + 1..];
      assert s1[|s1| - 1] == s[|s| - 1];
      assert EndsInComma(rest);
      var used := Strtoul(rest).1;
      StrtoulStopsBefore(rest);
      assert EndsInComma(rest[used..]);
      ToCommaLeavesComma(rest[used..]);
    }
  }

  lemma StrtoulStopsBefore(s: string)
    requires s != [] && s[|s| - 1] == ','
    ensures Strtoul(s).1 < |s|
  {
    var i := Span(s, Space);
    SpanStops(s, Space);
    var j := if i < |s| && (s[i] == '-' || s[i] == '+') then i + 1 else i;
    SpanStops(s[j..], Digit);
    assert j < |s|;
    assert s[j..][|s| - j - 1] == ',';
    hide Span, Number, ToInt;
  }
}
