/** Text as JavaScript holds it: sequences of UTF-16 code units. A Dafny char is a Unicode scalar
    value, as in a Python str without lone surrogates. */
module Utf16 {

  type Unit = n: int | 0 <= n < 0x10000

  type Units = seq<Unit>

  function CharUnits(c: char): (u: Units)
    ensures |u| > 0
  {
    var r := c as int;
    if r < 0x10000 then [r] else [0xD800 + (r - 0x10000) / 0x400, 0xDC00 + (r - 0x10000) % 0x400]
  }

  /** A pair of surrogates stands for the code point it is made of. */
  lemma SurrogatesOf(c: char)
    ensures var u := CharUnits(c);
            if c as int < 0x10000 then u == [c as int]
            else
              |u| == 2 && High(u[0]) && Low(u[1])
              && var (high: int, low: int) := (u[0], u[1]); c as int == 0x10000 + (high - 0xD800) * 0x400 + (low - 0xDC00)
  {
  }

  /** The code units of a text. */
  function Encoded(s: string): Units {
    if s == "" then [] else CharUnits(s[0]) + Encoded(s[1..])
  }

  predicate High(u: Unit) {
    0xD800 <= u < 0xDC00
  }

  predicate Low(u: Unit) {
    0xDC00 <= u < 0xE000
  }

  /** String.prototype.toWellFormed: every lone surrogate becomes U+FFFD. */
  function ToWellFormed(t: Units): Units {
    if t == [] then []
    else if High(t[0]) && |t| > 1 && Low(t[1]) then t[..2] + ToWellFormed(t[2..])
    else [if High(t[0]) || Low(t[0]) then 0xFFFD else t[0]] + ToWellFormed(t[1..])
  }

  lemma {:induction false} EncodedAppend(a: string, b: string)
    ensures Encoded(a + b) == Encoded(a) + Encoded(b)
  {
    if a == "" {
      assert a + b == b;
    } else {
      EncodedAppend(a[1..], b);
      assert (a + b)[0] == a[0] && (a + b)[1..] == a[1..] + b;
    }
  }

  /** toWellFormed leaves an encoded text alone. */
  lemma {:induction false} WellFormedEncoded(s: string)
    ensures ToWellFormed(Encoded(s)) == Encoded(s)
  {
    if s == "" {
    } else {
      WellFormedEncoded(s[1..]);
      var u, rest := CharUnits(s[0]), Encoded(s[1..]);
      var t := u + rest;
      if |u| == 1 {
        assert t[1..] == rest;
      } else {
        assert t[..2] == u && t[2..] == rest;
      }
    }
  }

  /** The code unit stands in a pair of surrogates, or is no surrogate at all. */
  ghost predicate Stands(t: Units, i: nat)
    requires i < |t|
  {
    && (0xD800 <= t[i] < 0xDC00 ==> i + 1 < |t| && 0xDC00 <= t[i + 1] < 0xE000)
    && (0xDC00 <= t[i] < 0xE000 ==> i > 0 && 0xD800 <= t[i - 1] < 0xDC00)
  }

  /** Unit by unit, toWellFormed puts U+FFFD in the place of what stands alone. */
  lemma {:induction false} WellFormedIs(t: Units)
    ensures |ToWellFormed(t)| == |t|
    ensures forall i :: 0 <= i < |t| ==> ToWellFormed(t)[i] == if Stands(t, i) then t[i] else 0xFFFD
    decreases |t|
  {
    if t != [] {
      var n := if High(t[0]) && |t| > 1 && Low(t[1]) then 2 else 1;
      WellFormedIs(t[n..]);
      forall i | n <= i < |t|
        ensures Stands(t, i) <==> Stands(t[n..], i - n)
      {
      }
    }
  }

  lemma CharUnitsPrefixFree(c: char, x: Units, d: char, y: Units)
    requires CharUnits(c) + x == CharUnits(d) + y
    ensures c == d && x == y
  {
    var u, v := CharUnits(c), CharUnits(d);
    assert (u + x)[0] == u[0] && (v + y)[0] == v[0];
    assert |u| == |v|;
    assert (u + x)[..|u|] == u && (v + y)[..|u|] == v;
    assert (u + x)[|u|..] == x && (v + y)[|u|..] == y;
    if |u| == 2 {
      assert u[0] == v[0] && u[1] == v[1];
      SplitBack(c as int - 0x10000);
      SplitBack(d as int - 0x10000);
    }
  }

  lemma SplitBack(n: int)
    ensures n == n / 0x400 * 0x400 + n % 0x400
  {
  }

  lemma {:induction false} EncodedInjective(a: string, b: string)
    requires Encoded(a) == Encoded(b)
    ensures a == b
  {
    hide CharUnits;
    if a == "" || b == "" {
    } else {
      CharUnitsPrefixFree(a[0], Encoded(a[1..]), b[0], Encoded(b[1..]));
      EncodedInjective(a[1..], b[1..]);
      assert a == [a[0]] + a[1..] && b == [b[0]] + b[1..];
    }
  }
}
