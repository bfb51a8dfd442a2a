// Byte strings, searching in them, and decimal numerals.
module Bytes {
  datatype Option<+T> = None | Some(value: T)
  datatype Result<+T, +E> = Ok(value: T) | Err(error: E)

  // A byte is a character below 256, so that protocol words can be written as string literals.
  type byte = c: char | c as int < 256 witness 'a'
  type bytes = seq<byte>

  const CRLF: bytes := "\r\n"

  function Min(a: nat, b: nat): nat {
    if a <= b then a else b
  }

  /** Index of the first `b` in `s`, or `|s|` when there is none. */
  function Find(s: bytes, b: byte): (p: nat)
    ensures p <= |s|
    ensures forall i :: 0 <= i < p ==> s[i] != b
    ensures p < |s| ==> s[p] == b
  {
    if s == [] || s[0] == b then 0 else 1 + Find(s[1..], b)
  }

  predicate IsDigit(b: byte) {
    '0' <= b <= '9'
  }

  predicate AllDigits(s: bytes) {
    forall i :: 0 <= i < |s| ==> IsDigit(s[i])
  }

  function Digit(d: nat): (b: byte)
    requires d < 10
    ensures IsDigit(b)
  {
    ('0' as int + d) as char
  }

  /** The number a string of decimal digits denotes; the empty string denotes zero. */
  function Numeral(s: bytes): nat
    requires AllDigits(s)
  {
    if s == [] then 0 else 10 * Numeral(s[..|s| - 1]) + (s[|s| - 1] as int - '0' as int)
  }

  /** The canonical decimal form of a number. */
  function Decimal(n: nat): (s: bytes)
    ensures s != [] && AllDigits(s)
  {
    if n < 10 then [Digit(n)] else Decimal(n / 10) + [Digit(n % 10)]
  }

  lemma {:induction false} DecimalDenotes(n: nat)
    ensures Numeral(Decimal(n)) == n
  {
    if n < 10 {
      assert Decimal(n)[..0] == [];
    } else {
      DecimalDenotes(n / 10);
      assert Decimal(n)[..|Decimal(n)| - 1] == Decimal(n / 10);
    }
  }

  /** No number but zero begins with a zero. */
  lemma {:induction false} DecimalIsCanonical(n: nat)
    ensures Decimal(n)[0] == '0' ==> Decimal(n) == "0" && n == 0
  {
    if n >= 10 {
      DecimalIsCanonical(n / 10);
      assert Decimal(n)[0] == Decimal(n / 10)[0];
    }
  }
}
