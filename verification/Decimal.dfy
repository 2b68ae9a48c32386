/** Base-ten numerals as Go's strconv and fmt print and read them. */
module Decimal {

  datatype Option<+T> = None | Some(value: T)

  const INT64_MAX: int := 0x7FFF_FFFF_FFFF_FFFF
  const UINT64_LIMIT: int := 0x1_0000_0000_0000_0000

  predicate IsDigit(c: char) {
    '0' <= c <= '9'
  }

  predicate AllDigits(s: string) {
    forall i :: 0 <= i < |s| ==> IsDigit(s[i])
  }

  function DigitChar(d: nat): (c: char)
    requires d < 10
    ensures IsDigit(c) && DigitValue(c) == d
  {
    ('0' as int + d) as char
  }

  function DigitValue(c: char): (d: nat)
    requires IsDigit(c)
    ensures d < 10
  {
    c as int - '0' as int
  }

  /** The numeral of n: no sign, no leading zero. */
  function Print(n: nat): (s: string)
    ensures |s| > 0 && AllDigits(s)
    ensures s[0] == '0' ==> n == 0
    ensures n == 0 ==> s == "0"
  {
    if n < 10 then [DigitChar(n)] else Print(n / 10) + [DigitChar(n % 10)]
  }

  function Value(s: string): nat
    requires AllDigits(s)
  {
    if s == "" then 0 else Value(s[..|s| - 1]) * 10 + DigitValue(s[|s| - 1])
  }

  lemma {:induction false} ValuePrint(n: nat)
    ensures Value(Print(n)) == n
  {
    var s := Print(n);
    if n < 10 {
      assert s[..0] == "";
    } else {
      ValuePrint(n / 10);
      assert s[..|s| - 1] == Print(n / 10);
    }
  }

  lemma PrintInjective(m: nat, n: nat)
    requires Print(m) == Print(n)
    ensures m == n
  {
    ValuePrint(m);
    ValuePrint(n);
  }

  /** fmt's %d and strconv.FormatInt on a signed integer. */
  function PrintInt(i: int): (s: string)
    ensures |s| > 0
  {
    if i < 0 then "-" + Print(-i) else Print(i)
  }

  lemma PrintIntInjective(i: int, j: int)
    requires PrintInt(i) == PrintInt(j)
    ensures i == j
  {
    if (i < 0) != (j < 0) {
      SignDiffers(i, j);
    } else if i < 0 {
      assert PrintInt(i)[1..] == Print(-i) && PrintInt(j)[1..] == Print(-j);
      PrintInjective(-i, -j);
    } else {
      PrintInjective(i, j);
    }
  }

  lemma SignDiffers(i: int, j: int)
    requires (i < 0) != (j < 0)
    ensures PrintInt(i) != PrintInt(j)
  {
    assert PrintInt(if i < 0 then i else j)[0] == '-';
    assert IsDigit(PrintInt(if i < 0 then j else i)[0]);
  }

  /** strconv.Atoi on a 64-bit platform: an optional sign, then digits, leading zeros allowed. */
  function Atoi(s: string): (r: Option<int>)
    ensures r.Some? ==> -INT64_MAX - 1 <= r.value <= INT64_MAX
  {
    var negative := |s| > 0 && s[0] == '-';
    var digits := if |s| > 0 && (s[0] == '-' || s[0] == '+') then s[1..] else s;
    if digits == "" || !AllDigits(digits) then None
    else
      var magnitude := Value(digits);
      var n: int := if negative then -(magnitude as int) else magnitude as int;
      if -INT64_MAX - 1 <= n <= INT64_MAX then Some(n) else None
  }

  /** strconv.ParseUint(s, 10, 64). */
  function ParseUint(s: string): (r: Option<nat>)
    ensures r.Some? ==> r.value < UINT64_LIMIT
  {
    if s == "" || !AllDigits(s) || Value(s) >= UINT64_LIMIT then None else Some(Value(s))
  }

  lemma AtoiPrint(n: nat)
    requires n <= INT64_MAX
    ensures Atoi(Print(n)) == Some(n)
  {
    ValuePrint(n);
    assert IsDigit(Print(n)[0]);
  }

  /** strconv.ParseInt(s, 10, 64) reads what %d printed, signs included. */
  lemma AtoiPrintInt(i: int)
    requires -INT64_MAX - 1 <= i <= INT64_MAX
    ensures Atoi(PrintInt(i)) == Some(i)
  {
    if i < 0 {
      ValuePrint(-i);
      assert PrintInt(i)[1..] == Print(-i);
    } else {
      AtoiPrint(i);
    }
  }

  /** strings.IndexByte: the first position of c, or -1. */
  function IndexOf(s: string, c: char): (k: int)
    ensures -1 <= k < |s|
    ensures k >= 0 ==> s[k] == c && c !in s[..k]
    ensures k < 0 ==> c !in s
  {
    if s == "" then -1
    else if s[0] == c then 0
    else
      var k := IndexOf(s[1..], c);
      if k < 0 then -1 else
        assert s[..k + 1] == [s[0]] + s[1..][..k];
        k + 1
  }

  lemma IndexOfAfter(pre: string, c: char, post: string)
    requires c !in pre
    ensures IndexOf(pre + [c] + post, c) == |pre|
  {
    var s := pre + [c] + post;
    var k := IndexOf(s, c);
    assert s[|pre|] == c && s[..|pre|] == pre;
    assert k >= 0;
    assert k <= |pre| by {
      assert forall j :: 0 <= j < k ==> s[..k][j] == s[j];
    }
    assert k >= |pre| by {
      assert forall j :: 0 <= j < |pre| ==> s[j] == pre[j];
    }
  }

  /** What Atoi reads: digits, with a sign or without, whose value fits. */
  lemma AtoiForms(digits: string)
    requires AllDigits(digits) && digits != ""
    ensures Atoi(digits) == Atoi("+" + digits) == if Value(digits) < 9_223_372_036_854_775_808 then Some(Value(digits)) else None
    ensures Atoi("-" + digits) == if Value(digits) <= 9_223_372_036_854_775_808 then Some(-(Value(digits) as int)) else None
  {
    assert IsDigit(digits[0]);
    assert ("+" + digits)[1..] == digits && ("-" + digits)[1..] == digits;
  }

  /** And nothing else. */
  lemma AtoiOnlyForms(s: string)
    requires Atoi(s).Some?
    ensures exists sign: string, digits: string ::
              s == sign + digits && (sign == "" || sign == "+" || sign == "-") && digits != "" && AllDigits(digits)
  {
    if s[0] == '-' || s[0] == '+' {
      assert s == [s[0]] + s[1..];
      assert [s[0]] == "+" || [s[0]] == "-";
    } else {
      assert s == "" + s;
    }
  }
}
