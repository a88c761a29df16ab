/** White space and decimal numbers in byte strings (strings.TrimSpace on ASCII text, strconv). */
module Text {
  import opened Bytes

  predicate IsSpace(c: byte) { 9 <= c <= 13 || c == 32 }

  function TrimLeft(s: bytes): bytes { if s != [] && IsSpace(s[0]) then TrimLeft(s[1..]) else s }

  function TrimRight(s: bytes): bytes { if s != [] && IsSpace(s[|s| - 1]) then TrimRight(s[..|s| - 1]) else s }

  function TrimSpace(s: bytes): bytes { TrimRight(TrimLeft(s)) }

  const ZERO: byte := 48

  predicate AllDigits(s: bytes) { forall i | 0 <= i < |s| :: ZERO <= s[i] < ZERO + 10 }

  function Decimal(s: bytes): nat
    requires AllDigits(s)
  {
    if s == [] then 0 else Decimal(s[..|s| - 1]) * 10 + (s[|s| - 1] - ZERO)
  }

  /** strconv.Itoa of a natural number. */
  function Digits(n: nat): (d: bytes)
    ensures d != []
  {
    if n < 10 then [ZERO + n] else Digits(n / 10) + [ZERO + n % 10]
  }

  lemma {:induction false} DigitsRead(n: nat)
    ensures AllDigits(Digits(n)) && Decimal(Digits(n)) == n
  {
    if n >= 10 {
      DigitsRead(n / 10);
      var d := Digits(n);
      assert d[..|d| - 1] == Digits(n / 10);
    } else {
      var d := Digits(n);
      assert d[..|d| - 1] == [];
    }
  }
}
