/** The parts of the C library that src/log.c and src/zurlparse.c use to scan text. */
module TextScan {
  predicate Digit(c: char) {
    '0' <= c <= '9'
  }

  predicate Space(c: char) {
    c == ' ' || '\t' <= c <= '\r'
  }

  /** How many characters at the start are of a kind. */
  function Span(s: string, kind: char -> bool): (k: nat)
    ensures k <= |s|
  {
    if s == [] || !kind(s[0]) then 0 else 1 + Span(s[1..], kind)
  }

  const ULONG := 0x1_0000_0000_0000_0000

  /** The digits at the start, after those worth `acc`. */
  function Number(s: string, acc: nat): nat
    decreases |s|
  {
    if s == [] || !Digit(s[0]) then acc else Number(s[1..], acc * 10 + (s[0] as int - '0' as int))
  }

  /** strtoul in base ten: the value, and how many characters make it up. */
  function Strtoul(s: string): (r: (nat, nat))
    ensures r.1 <= |s|
  {
    var i := Span(s, Space);
    var signed := i < |s| && (s[i] == '-' || s[i] == '+');
    var j := if signed then i + 1 else i;
    var n := Span(s[j..], Digit);
    if n == 0 then (0, 0)
    else
      var m := Number(s[j..], 0);
      (if m >= ULONG then ULONG - 1 else if signed && s[i] == '-' then (ULONG - m) % ULONG else m, j + n)
  }

  /** A loop that skips characters. */
  method SpanOf(s: string, kind: char -> bool) returns (k: nat)
    ensures k == Span(s, kind)
  {
    k := 0;
    assert s[0..] == s;
    while k < |s| && kind(s[k])
      invariant k <= |s|
      invariant Span(s, kind) == k + Span(s[k..], kind)
    {
      assert s[k..][1..] == s[k + 1..];
      k := k + 1;
    }
  }

  // ----- properties -----

  ghost predicate AllOf(s: string, kind: char -> bool) {
    forall i :: 0 <= i < |s| ==> kind(s[i])
  }

  lemma {:induction false} SpanIs(s: string, t: string, kind: char -> bool)
    requires AllOf(s, kind) && (t == [] || !kind(t[0]))
    ensures Span(s + t, kind) == |s|
  {
    if s == [] {
      assert s + t == t;
    } else {
      assert kind(s[0]) && (s + t)[0] == s[0];
      assert (s + t)[1..] == s[1..] + t;
      assert forall i :: 0 <= i < |s[1..]| ==> s[1..][i] == s[i + 1];
      SpanIs(s[1..], t, kind);
    }
  }

  lemma {:induction false} SpanStops(s: string, kind: char -> bool)
    ensures Span(s, kind) < |s| ==> !kind(s[Span(s, kind)])
    ensures forall i :: 0 <= i < Span(s, kind) ==> kind(s[i])
  {
    if s != [] && kind(s[0]) {
      SpanStops(s[1..], kind);
      assert forall i :: 1 <= i < |s| ==> s[i] == s[1..][i - 1];
    }
  }

  function Decimal(n: nat): (s: string)
    ensures s != []
  {
    var last := [('0' as int + n % 10) as char];
    if n < 10 then last else Decimal(n / 10) + last
  }

  lemma {:induction false} NumberAppends(a: string, b: string, acc: nat)
    requires AllOf(a, Digit)
    ensures Number(a + b, acc) == Number(b, Number(a, acc))
    decreases |a|
  {
    if a == [] {
      assert a + b == b;
    } else {
      assert Digit(a[0]) && (a + b)[0] == a[0] && (a + b)[1..] == a[1..] + b;
      assert forall i :: 0 <= i < |a[1..]| ==> a[1..][i] == a[i + 1];
      NumberAppends(a[1..], b, acc * 10 + (a[0] as int - '0' as int));
    }
  }

  lemma {:induction false} DecimalReads(n: nat)
    ensures AllOf(Decimal(n), Digit)
    ensures Number(Decimal(n), 0) == n
    decreases n
  {
    var c := ('0' as int + n % 10) as char;
    OneDigit(n % 10, n / 10);
    if n < 10 {
      assert Decimal(n) == [c];
    } else {
      var front := Decimal(n / 10);
      DecimalReads(n / 10);
      assert Decimal(n) == front + [c];
      NumberAppends(front, [c], 0);
    }
  }

  lemma OneDigit(k: nat, acc: nat)
    requires k < 10
    ensures var c := ('0' as int + k) as char;
      Digit(c) && Number([c], acc) == acc * 10 + k
  {
    var c := ('0' as int + k) as char;
    assert [c][1..] == [];
  }

  lemma StrtoulReads(n: nat, t: string)
    requires n < ULONG && (t == [] || !Digit(t[0]))
    ensures Strtoul(Decimal(n) + t) == (n, |Decimal(n)|)
  {
    var d := Decimal(n);
    var s := d + t;
    DecimalReads(n);
    NumberAppends(d, t, 0);
    assert Number(t, n) == n;
    SpanIs(d, t, Digit);
    assert Digit(d[0]) && s[0] == d[0];
    hide Decimal, Number;
    assert Span(s, Space) == 0;
    assert s[0..] == s;
  }
}
