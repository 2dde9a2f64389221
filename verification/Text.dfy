/** Decimal rendering of ids, as `fmt::format` does it, and when a rendered id
    can be read back out of a longer string. */
module Text {

  const DIGITS: string := "0123456789"

  predicate IsDigit(c: char) { '0' <= c <= '9' }

  function Decimal(n: nat): (s: string)
    ensures s != [] && forall c | c in s :: IsDigit(c)
  {
    if n < 10 then [DIGITS[n]] else Decimal(n / 10) + [DIGITS[n % 10]]
  }

  /** The number that a string of digits spells. */
  function Value(s: string): int {
    if s == [] then 0 else 10 * Value(s[..|s| - 1]) + (s[|s| - 1] as int - '0' as int)
  }

  /** A number is spelled in decimal, without leading zeros. */
  lemma {:induction false} DecimalSpells(n: nat)
    ensures Value(Decimal(n)) == n && (Decimal(n)[0] == '0' <==> n == 0)
    ensures forall c | c in Decimal(n) :: '0' <= c <= '9'
  {
    var s := Decimal(n);
    assert s[|s| - 1] as int - '0' as int == n % 10;
    if n >= 10 {
      DecimalSpells(n / 10);
      assert s[..|s| - 1] == Decimal(n / 10) && s[0] == Decimal(n / 10)[0];
    } else {
      assert s[..|s| - 1] == [];
    }
  }

  lemma {:induction false} DecimalInjective(m: nat, n: nat)
    requires Decimal(m) == Decimal(n)
    ensures m == n
  {
    var s, t := Decimal(m), Decimal(n);
    assert s[|s| - 1] == DIGITS[m % 10] && t[|t| - 1] == DIGITS[n % 10];
    assert forall j, k | 0 <= j < k < 10 :: DIGITS[j] != DIGITS[k];
    if m >= 10 && n >= 10 {
      assert s[..|s| - 1] == Decimal(m / 10) && t[..|t| - 1] == Decimal(n / 10);
      DecimalInjective(m / 10, n / 10);
    }
  }

  /** A run of digits that a non-digit ends can be split off in one way only. */
  lemma DigitsEndOnce(d: string, r: string, e: string, t: string, stop: char)
    requires (forall c | c in d :: IsDigit(c)) && (forall c | c in e :: IsDigit(c)) && !IsDigit(stop)
    requires d + [stop] + r == e + [stop] + t
    ensures d == e && r == t
  {
    var whole := d + [stop] + r;
    assert forall k | 0 <= k < |d| :: whole[k] == d[k] && IsDigit(d[k]);
    assert forall k | 0 <= k < |e| :: whole[k] == e[k] && IsDigit(e[k]);
    assert whole[|d|] == stop == whole[|e|];
    assert |d| == |e|;
    assert d == whole[..|d|] && e == whole[..|e|];
    assert r == whole[|d| + 1..] && t == whole[|e| + 1..];
  }

  /** An id rendered in front of a non-digit can be read back, whatever follows. */
  lemma IdReadsBack(m: nat, r: string, n: nat, t: string, stop: char)
    requires !IsDigit(stop)
    requires Decimal(m) + [stop] + r == Decimal(n) + [stop] + t
    ensures m == n && r == t
  {
    DigitsEndOnce(Decimal(m), r, Decimal(n), t, stop);
    DecimalInjective(m, n);
  }
}
