// Numerals: decimal strings, splitting and joining, and the order of strings.

module Numerals {
  import opened Text

  predicate IsDigit(c: char) {
    '0' <= c <= '9'
  }

  function DigitChar(d: nat): (c: char)
    requires d < 10
    ensures IsDigit(c) && c as int - '0' as int == d
  {
    ('0' as int + d) as char
  }

  predicate AllDigits(s: string) {
    forall i :: 0 <= i < |s| ==> IsDigit(s[i])
  }

  /** String(n) for a natural number. */
  function Decimal(n: nat): (s: string)
    ensures s != "" && AllDigits(s)
  {
    if n < 10 then [DigitChar(n)] else Decimal(n / 10) + [DigitChar(n % 10)]
  }

  function Value(s: string): nat
    requires AllDigits(s)
  {
    if s == "" then 0 else 10 * Value(s[..|s| - 1]) + (s[|s| - 1] as int - '0' as int)
  }

  lemma {:induction false} ValueOfDecimal(n: nat)
    ensures Value(Decimal(n)) == n
  {
    if n >= 10 {
      ValueOfDecimal(n / 10);
      assert Decimal(n)[..|Decimal(n)| - 1] == Decimal(n / 10);
    }
  }

  // ---- split and join --------------------------------------------------------

  function IndexOf(s: string, c: char): (i: nat)
    requires c in s
    ensures i < |s| && s[i] == c && forall j :: 0 <= j < i ==> s[j] != c
  {
    if s[0] == c then 0 else IndexOf(s[1..], c) + 1
  }

  /** s.split(c). */
  function Split(s: string, c: char): (parts: seq<string>)
    ensures parts != []
    decreases |s|
  {
    if c !in s then [s]
    else
      var i := IndexOf(s, c);
      [s[..i]] + Split(s[i + 1..], c)
  }

  /** parts.join(c). */
  function Join(parts: seq<string>, c: char): string
    requires parts != []
  {
    if |parts| == 1 then parts[0] else parts[0] + [c] + Join(parts[1..], c)
  }

  lemma FirstIndex(a: string, c: char, rest: string)
    requires c !in a
    ensures c in a + [c] + rest && IndexOf(a + [c] + rest, c) == |a|
    ensures (a + [c] + rest)[..|a|] == a && (a + [c] + rest)[|a| + 1..] == rest
  {
    var s := a + [c] + rest;
    assert s[|a|] == c;
    assert c in s;
    var i := IndexOf(s, c);
    assert forall k :: 0 <= k < |a| ==> s[k] == a[k];
  }

  lemma SplitFirst(a: string, c: char, rest: string)
    requires c !in a
    ensures Split(a + [c] + rest, c) == [a] + Split(rest, c)
  {
    FirstIndex(a, c, rest);
  }

  /** Splitting a joined list gives the list back, if no part holds the separator. */
  lemma {:induction false} SplitInvertsJoin(parts: seq<string>, c: char)
    requires parts != [] && forall i :: 0 <= i < |parts| ==> c !in parts[i]
    ensures Split(Join(parts, c), c) == parts
  {
    hide Split;
    if |parts| == 1 {
      assert parts == [parts[0]];
      SplitWhole(parts[0], c);
    } else {
      SplitInvertsJoin(parts[1..], c);
      SplitFirst(parts[0], c, Join(parts[1..], c));
      assert parts == [parts[0]] + parts[1..];
    }
  }

  lemma SplitWhole(s: string, c: char)
    requires c !in s
    ensures Split(s, c) == [s]
  {
  }

  // ---- order -----------------------------------------------------------------

  /** a < b, as JavaScript and SQLite compare strings of these characters. */
  predicate Less(a: string, b: string) {
    b != "" && (a == "" || a[0] < b[0] || (a[0] == b[0] && Less(a[1..], b[1..])))
  }

  /** Comparing equally long heads first, then the rest. */
  lemma {:induction false} LessInParts(x: string, u: string, y: string, v: string)
    requires |x| == |y|
    ensures Less(x + u, y + v) <==> Less(x, y) || (x == y && Less(u, v))
  {
    if x == "" {
      assert x + u == u && y + v == v;
    } else {
      assert (x + u)[1..] == x[1..] + u && (y + v)[1..] == y[1..] + v;
      LessInParts(x[1..], u, y[1..], v);
      assert x == [x[0]] + x[1..] && y == [y[0]] + y[1..];
    }
  }

  function Pow10(w: nat): nat {
    if w == 0 then 1 else 10 * Pow10(w - 1)
  }

  /** The last w digits of n. */
  function Fixed(n: nat, w: nat): (s: string)
    ensures |s| == w && AllDigits(s)
  {
    if w == 0 then "" else Fixed(n / 10, w - 1) + [DigitChar(n % 10)]
  }

  lemma OneDigit(a: nat, b: nat)
    requires a < 10 && b < 10
    ensures Less([DigitChar(a)], [DigitChar(b)]) <==> a < b
    ensures [DigitChar(a)] == [DigitChar(b)] <==> a == b
  {
    assert Less([DigitChar(a)][1..], [DigitChar(b)][1..]) == false;
    assert [DigitChar(a)][0] == DigitChar(a) && [DigitChar(b)][0] == DigitChar(b);
  }

  /** Fixed-width numerals are ordered and told apart as their numbers are. */
  lemma {:induction false} FixedInOrder(a: nat, b: nat, w: nat)
    requires a < Pow10(w) && b < Pow10(w)
    ensures Less(Fixed(a, w), Fixed(b, w)) <==> a < b
    ensures Fixed(a, w) == Fixed(b, w) <==> a == b
  {
    if w > 0 {
      FixedInOrder(a / 10, b / 10, w - 1);
      OneDigit(a % 10, b % 10);
      var x, y := Fixed(a / 10, w - 1), Fixed(b / 10, w - 1);
      LessInParts(x, [DigitChar(a % 10)], y, [DigitChar(b % 10)]);
      assert a == a / 10 * 10 + a % 10 && b == b / 10 * 10 + b % 10;
      assert Fixed(a, w)[..w - 1] == x && Fixed(b, w)[..w - 1] == y;
      assert Fixed(a, w)[w - 1] == DigitChar(a % 10) && Fixed(b, w)[w - 1] == DigitChar(b % 10);
    }
  }

  /** A numeral of exactly w digits is its fixed-width form. */
  lemma {:induction false} DecimalIsFixed(n: nat, w: nat)
    requires w >= 1 && n < Pow10(w) && (w > 1 ==> n >= Pow10(w - 1))
    ensures Decimal(n) == Fixed(n, w)
  {
    if w == 1 {
      assert Pow10(1) == 10 * Pow10(0);
      assert Fixed(n / 10, 0) == "";
    } else {
      assert w > 2 ==> n / 10 >= Pow10(w - 2);
      assert Pow10(w - 1) >= 10 by { Pow10Grows(w - 1); }
      DecimalIsFixed(n / 10, w - 1);
    }
  }

  lemma {:induction false} Pow10Grows(w: nat)
    requires w >= 1
    ensures Pow10(w) >= 10
  {
    if w > 1 { Pow10Grows(w - 1); }
  }

  /** String(n).padStart(2, "0"). */
  function Pad2(n: nat): string {
    if n < 10 then "0" + Decimal(n) else Decimal(n)
  }

  lemma Pad2IsFixed(n: nat)
    requires n < 100
    ensures Pad2(n) == Fixed(n, 2)
  {
    assert Fixed(n, 2) == Fixed(n / 10, 1) + [DigitChar(n % 10)];
    assert Fixed(n / 10, 1) == Fixed(n / 10 / 10, 0) + [DigitChar(n / 10 % 10)];
    if n >= 10 { assert Decimal(n / 10) == [DigitChar(n / 10)]; }
  }
}
