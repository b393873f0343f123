/** Decimal numerals: the checked u64 parser of the overview rows, against plain positional value. */
module Decimal {
  import opened Bytes

  const U64_LIMIT: nat := 0x1_0000_0000_0000_0000

  predicate IsDigit(b: Byte) {
    ZERO <= b <= NINE
  }

  predicate AllDigits(s: Text) {
    forall i :: 0 <= i < |s| ==> IsDigit(s[i])
  }

  function DigitValue(b: Byte): (d: nat)
    requires IsDigit(b)
    ensures d <= 9
  {
    (b - ZERO) as int
  }

  /** The number a digit string denotes, without any bound. */
  function Value(s: Text): nat
    requires AllDigits(s)
  {
    if s == [] then 0 else Value(s[..|s| - 1]) * 10 + DigitValue(s[|s| - 1])
  }

  /** `str::parse::<u64>` on digits: multiply and add, giving up at the first overflow. */
  function ParseFrom(s: Text, i: nat, acc: nat): Option<nat>
    requires AllDigits(s) && i <= |s|
    decreases |s| - i
  {
    if i == |s| then Some(acc)
    else if acc * 10 + DigitValue(s[i]) >= U64_LIMIT then None
    else ParseFrom(s, i + 1, acc * 10 + DigitValue(s[i]))
  }

  /** `parse_ascii_u64`. */
  function ParseU64(s: Text): Option<nat> {
    if s == [] || !AllDigits(s) then None else ParseFrom(s, 0, 0)
  }

  lemma {:induction false} ValueMonotone(s: Text, i: nat)
    requires AllDigits(s) && i <= |s|
    ensures Value(s[..i]) <= Value(s)
  {
    if i < |s| {
      assert s[..|s| - 1][..i] == s[..i];
      ValueMonotone(s[..|s| - 1], i);
    } else {
      assert s[..i] == s;
    }
  }

  lemma {:induction false} ParseFromValue(s: Text, i: nat)
    requires AllDigits(s) && i <= |s| && Value(s[..i]) < U64_LIMIT
    ensures ParseFrom(s, i, Value(s[..i])) == if Value(s) < U64_LIMIT then Some(Value(s)) else None
    decreases |s| - i
  {
    if i == |s| {
      assert s[..i] == s;
    } else {
      assert s[..i + 1][..i] == s[..i];
      assert Value(s[..i + 1]) == Value(s[..i]) * 10 + DigitValue(s[i]);
      ValueMonotone(s, i + 1);
      if Value(s[..i + 1]) < U64_LIMIT {
        ParseFromValue(s, i + 1);
      }
    }
  }

  /** The parser accepts exactly the non-empty digit strings that denote a u64, and returns what they denote. */
  lemma ParseU64Exact(s: Text)
    ensures ParseU64(s) == if s != [] && AllDigits(s) && Value(s) < U64_LIMIT then Some(Value(s)) else None
  {
    if s != [] && AllDigits(s) {
      assert s[..0] == [];
      ParseFromValue(s, 0);
    }
  }

  /** The shortest decimal numeral of `n`. */
  function Print(n: nat): (s: Text)
    ensures s != [] && AllDigits(s)
  {
    var last := [(n % 10) as Byte + ZERO];
    if n < 10 then last else Print(n / 10) + last
  }

  lemma {:induction false} ValuePrint(n: nat)
    ensures Value(Print(n)) == n
  {
    var s := Print(n);
    var last := (n % 10) as Byte + ZERO;
    assert DigitValue(last) == n % 10;
    if n < 10 {
      assert s[..|s| - 1] == [];
    } else {
      assert s[..|s| - 1] == Print(n / 10) && s[|s| - 1] == last;
      ValuePrint(n / 10);
    }
  }

  /** Printed numbers parse back, exactly when they fit. */
  lemma ParsePrint(n: nat)
    ensures ParseU64(Print(n)) == if n < U64_LIMIT then Some(n) else None
  {
    ValuePrint(n);
    ParseU64Exact(Print(n));
  }
}
