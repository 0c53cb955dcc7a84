/** Whole numbers in decimal, without needless leading zeros. */
module Decimals {
  type Text = seq<char>

  predicate Digit(c: char) {
    '0' <= c <= '9'
  }

  /** Decimal digits without a needless leading zero. */
  predicate Canonical(t: Text) {
    t != [] && (forall c <- t :: Digit(c)) && (|t| > 1 ==> t[0] != '0')
  }

  function Numeral(n: nat): Text {
    if n < 10 then ['0' + n as char] else Numeral(n / 10) + ['0' + (n % 10) as char]
  }

  function Value(t: Text): nat
    requires forall c <- t :: Digit(c)
  {
    if t == [] then 0
    else
      assert t[|t| - 1] in t && Digit(t[|t| - 1]);
      Value(t[..|t| - 1]) * 10 + (t[|t| - 1] as nat - '0' as nat)
  }

  lemma {:induction false} NumeralCanonical(n: nat)
    ensures Canonical(Numeral(n)) && Value(Numeral(n)) == n && (n > 0 ==> Numeral(n)[0] != '0')
  {
    if n < 10 {
      var t := Numeral(n);
      assert t[..0] == [];
    } else {
      NumeralCanonical(n / 10);
      assert Numeral(n)[..|Numeral(n)| - 1] == Numeral(n / 10);
    }
  }

  lemma {:induction false} CanonicalNumeral(t: Text)
    requires Canonical(t)
    ensures Numeral(Value(t)) == t && (Value(t) == 0 <==> t == "0")
  {
    assert t[|t| - 1] in t;
    if |t| == 1 {
      assert t[..0] == [];
    } else {
      var init, last := t[..|t| - 1], t[|t| - 1] as nat - '0' as nat;
      CanonicalNumeral(init);
      assert init[0] == t[0];
      assert (Value(init) * 10 + last) / 10 == Value(init) && (Value(init) * 10 + last) % 10 == last;
    }
  }

  /** An integer with a sign where it needs one. */
  function Signed(i: int): Text {
    if i < 0 then ['-'] + Numeral(-i) else Numeral(i)
  }

  lemma SignedChars(i: int)
    ensures Signed(i) != [] && forall c <- Signed(i) :: Digit(c) || c == '-'
  {
    NumeralCanonical(if i < 0 then -i else i);
  }

  lemma SignedInjective(i: int, j: int)
    ensures Signed(i) == Signed(j) <==> i == j
  {
    NumeralCanonical(if i < 0 then -i else i);
    NumeralCanonical(if j < 0 then -j else j);
    assert forall k: int :: k < 0 ==> Signed(k)[0] == '-' && Signed(k)[1..] == Numeral(-k);
    if i >= 0 {
      assert Numeral(i)[0] in Numeral(i);
    }
    if j >= 0 {
      assert Numeral(j)[0] in Numeral(j);
    }
  }
}
