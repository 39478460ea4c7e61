/** The numbers in the intervals of a pattern, as usr/src/head/regexp.h reads them: runs of
    decimal digits, of any length. */
module RegexNumbers {
  import opened Bytes
  import opened RegexText

  /** What the loop over the digits adds up. */
  function Value(ds: seq<byte>): nat {
    if ds == [] then 0
    else var d := ds[|ds| - 1]; 10 * Value(ds[..|ds| - 1]) + (if Digit(d) then d - 48 else 0)
  }

  /** A number in decimal. */
  function Digits(n: nat): (ds: seq<byte>)
    ensures DigitsValid(ds)
  {
    if n < 10 then [48 + n] else Digits(n / 10) + [48 + n % 10]
  }

  function LeadingZeros(z: nat): (ds: seq<byte>)
    ensures |ds| == z && forall i :: 0 <= i < z ==> ds[i] == 48
  {
    seq(z, _ => 48)
  }

  /** The number `n` in decimal, behind `z` zeros. */
  function Decimal(z: nat, n: nat): (ds: seq<byte>)
    ensures DigitsValid(ds)
  {
    LeadingZeros(z) + Digits(n)
  }

  lemma {:induction false} ValueMore(ds: seq<byte>, d: byte)
    requires Digit(d)
    ensures Value(ds + [d]) == 10 * Value(ds) + (d - 48)
  {
    assert (ds + [d])[..|ds|] == ds;
  }

  lemma {:induction false} ValueZeros(z: nat)
    ensures Value(LeadingZeros(z)) == 0
  {
    if z > 0 {
      assert LeadingZeros(z) == LeadingZeros(z - 1) + [48];
      ValueZeros(z - 1);
      ValueMore(LeadingZeros(z - 1), 48);
    }
  }

  /** What is read is the number that is written. */
  lemma {:induction false} ValueDecimal(z: nat, n: nat)
    ensures Value(Decimal(z, n)) == n
    decreases n
  {
    var d: byte := 48 + n % 10;
    if n < 10 {
      ValueZeros(z);
      ValueMore(LeadingZeros(z), d);
    } else {
      assert Decimal(z, n) == Decimal(z, n / 10) + [d];
      ValueDecimal(z, n / 10);
      ValueMore(Decimal(z, n / 10), d);
    }
  }

  /** One more digit behind a number, and behind zeros alone. */
  lemma {:induction false} DecimalMore(z: nat, v: nat, n: nat, d: byte)
    requires v > 0 && Digit(d) && n == 10 * v + (d - 48)
    ensures Decimal(z, n) == Decimal(z, v) + [d]
  {
    assert n >= 10 && n / 10 == v && n % 10 == d - 48;
  }

  lemma {:induction false} DecimalZeros(y: nat, n: nat, d: byte)
    requires Digit(d) && n == d - 48
    ensures Decimal(y + 1, n) == Decimal(y, 0) + [d]
  {
    assert Digits(0) == [48] && Digits(n) == [d] && LeadingZeros(y + 1) == LeadingZeros(y) + [48];
  }

  lemma {:induction false} DecimalNext(y: nat, v: nat, n: nat, d: byte) returns (z: nat)
    requires Digit(d) && n == 10 * v + (d - 48)
    ensures Decimal(z, n) == Decimal(y, v) + [d]
  {
    if v == 0 {
      DecimalZeros(y, n, d);
      z := y + 1;
    } else {
      DecimalMore(y, v, n, d);
      z := y;
    }
  }

  lemma {:induction false} DecimalOne(d: byte, n: nat)
    requires Digit(d) && n == d - 48
    ensures Decimal(0, n) == [d]
  {
  }

  /** Every run of digits is a number so written. */
  lemma {:induction false} DigitsAreDecimal(ds: seq<byte>) returns (z: nat, n: nat)
    requires DigitsValid(ds)
    ensures n == Value(ds) && ds == Decimal(z, n)
    decreases |ds|
  {
    var init, d := ds[..|ds| - 1], ds[|ds| - 1];
    assert ds == init + [d];
    ValueMore(init, d);
    n := Value(ds);
    if init == [] {
      z := 0;
      DecimalOne(d, n);
    } else {
      var y, v := DigitsAreDecimal(init);
      z := DecimalNext(y, v, n, d);
    }
  }

  /** `ds` spells the number `n` in decimal. */
  ghost predicate Spells(ds: seq<byte>, n: nat) { exists z: nat :: ds == Decimal(z, n) }

  lemma {:induction false} SpellsValue(ds: seq<byte>, n: nat)
    requires DigitsValid(ds)
    ensures Spells(ds, n) <==> n == Value(ds)
  {
    var z, v := DigitsAreDecimal(ds);
    if y: nat :| ds == Decimal(y, n) { ValueDecimal(y, n); }
  }
}
