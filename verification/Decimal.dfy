/** fmt's %d on unsigned integers and strconv.ParseUint in base ten. */
module Decimal {
  import opened Types

  function Digit(d: nat): char
    requires d < 10
  {
    '0' + d as char
  }

  predicate IsDigit(c: char) {
    '0' <= c <= '9'
  }

  function Dec(n: nat): (s: string)
    ensures s != [] && forall c :: c in s ==> IsDigit(c)
  {
    if n < 10 then [Digit(n)] else Dec(n / 10) + [Digit(n % 10)]
  }

  /** The value of a non-empty string of digits. */
  function Digits(s: string): Option<nat> {
    if s == [] || !IsDigit(s[|s| - 1]) then None
    else
      var d := s[|s| - 1] as nat - '0' as nat;
      if |s| == 1 then Some(d)
      else match Digits(s[..|s| - 1])
        case None => None
        case Some(n) => Some(10 * n + d)
  }

  function ParseUint(s: string): Option<uint64> {
    match Digits(s)
    case Some(n) => if n < TWO64 then Some(n) else None
    case None => None
  }

  lemma {:induction false} DigitsOfDec(n: nat)
    ensures Digits(Dec(n)) == Some(n)
  {
    if n >= 10 {
      DigitsOfDec(n / 10);
      var s := Dec(n);
      assert s[..|s| - 1] == Dec(n / 10) && s[|s| - 1] == Digit(n % 10);
    }
  }

  /** Printing then parsing is the identity on every 64-bit number. */
  lemma ParseOfDec(n: uint64)
    ensures ParseUint(Dec(n)) == Some(n)
  {
    DigitsOfDec(n);
  }

  /** What parses: the non-empty strings of digits below 2^64, leading zeros or not. */
  lemma {:induction false} DigitsExactly(s: string)
    ensures Digits(s).Some? <==> s != [] && forall c :: c in s ==> IsDigit(c)
    ensures s != [] ==> Digits(['0'] + s) == Digits(s)
  {
    if s != [] {
      var n := |s| - 1;
      assert s == s[..n] + [s[n]];
      assert (['0'] + s)[..|s|] == ['0'] + s[..n];
      DigitsExactly(s[..n]);
      if n == 0 {
        assert ['0'] + s[..0] == ['0'] && ['0'][..0] == [];
        assert Digits(['0']) == Some(0);
      }
    }
  }

  lemma DecInjective(m: nat, n: nat)
    ensures Dec(m) == Dec(n) ==> m == n
  {
    DigitsOfDec(m);
    DigitsOfDec(n);
  }
}
