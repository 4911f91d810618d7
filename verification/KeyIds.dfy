/** JWT key IDs: a process-wide 32-bit counter, printed in decimal. */
module KeyIds {

  const PREFIX: string := "spirl-dev-jwt-key-"

  /** A 32-bit increment, which wraps around. */
  function Increment(v: int): int {
    if v == 0x7FFF_FFFF then -0x8000_0000 else v + 1
  }

  /** The counter after n increments from zero. */
  function Counter(n: nat): int {
    if n == 0 then 0 else Increment(Counter(n - 1))
  }

  function Digit(d: nat): char
    requires d < 10
  {
    '0' + (d as char)
  }

  function Digits(n: nat): (r: string)
    ensures r != [] && forall i :: 0 <= i < |r| ==> '0' <= r[i] <= '9'
  {
    if n < 10 then [Digit(n)] else Digits(n / 10) + [Digit(n % 10)]
  }

  function Decimal(i: int): string {
    if i < 0 then "-" + Digits(-i) else Digits(i)
  }

  /** The ID of the n-th key. */
  function KeyId(n: nat): (r: string)
    ensures r != ""
  {
    PREFIX + Decimal(Counter(n))
  }

  /** Reading digits back. */
  function Value(s: string): int {
    if s == [] then 0 else Value(s[..|s| - 1]) * 10 + (s[|s| - 1] as int - '0' as int)
  }

  lemma {:induction false} DigitsRoundTrip(n: nat)
    ensures Value(Digits(n)) == n
  {
    if n < 10 {
      assert [Digit(n)][..0] == [];
    } else {
      DigitsRoundTrip(n / 10);
      var s := Digits(n);
      assert s[..|s| - 1] == Digits(n / 10);
    }
  }

  lemma DecimalInjective(i: int, j: int)
    requires Decimal(i) == Decimal(j)
    ensures i == j
  {
    assert i < 0 ==> Decimal(i)[0] == '-' && Decimal(i)[1..] == Digits(-i);
    assert j < 0 ==> Decimal(j)[0] == '-' && Decimal(j)[1..] == Digits(-j);
    DigitsRoundTrip(if i < 0 then -i else i);
    DigitsRoundTrip(if j < 0 then -j else j);
  }

  lemma {:induction false} CounterWraps(n: nat)
    ensures Counter(n) == (n + 0x8000_0000) % 0x1_0000_0000 - 0x8000_0000
  {
    if n > 0 {
      CounterWraps(n - 1);
    }
  }

  lemma CounterCollidesIff(n: nat, k: nat)
    ensures Counter(n) == Counter(k) <==> n % 0x1_0000_0000 == k % 0x1_0000_0000
  {
    CounterWraps(n);
    CounterWraps(k);
    SameRemainder(n, k);
  }

  lemma SameRemainder(n: nat, k: nat)
    ensures (n + 0x8000_0000) % 0x1_0000_0000 == (k + 0x8000_0000) % 0x1_0000_0000 <==>
            n % 0x1_0000_0000 == k % 0x1_0000_0000
  {
  }

  lemma FirstKeyId()
    ensures KeyId(1) == "spirl-dev-jwt-key-1"
  {
    assert Counter(0) == 0 && Counter(1) == 1;
    assert Decimal(1) == "1";
  }

  /** Two keys get the same ID exactly if their numbers differ by a multiple of 2^32. */
  lemma KeyIdCollidesIff(n: nat, k: nat)
    ensures KeyId(n) == KeyId(k) <==> n % 0x1_0000_0000 == k % 0x1_0000_0000
  {
    CounterCollidesIff(n, k);
    var i, j := Counter(n), Counter(k);
    if KeyId(n) == KeyId(k) {
      SuffixOf(Decimal(i), Decimal(j));
      DecimalInjective(i, j);
    }
  }

  lemma SuffixOf(s: string, t: string)
    requires PREFIX + s == PREFIX + t
    ensures s == t
  {
    assert s == (PREFIX + s)[|PREFIX|..];
    assert t == (PREFIX + t)[|PREFIX|..];
  }

  /** The text is the ID of the n-th key. */
  ghost predicate IsIdOf(keyID: string, n: nat) {
    keyID == KeyId(n)
  }

  /** Below 2^32, an ID belongs to one number. */
  lemma DifferentIds(a: string, n: nat, b: string, k: nat)
    requires IsIdOf(a, n) && IsIdOf(b, k) && n != k && n < 0x1_0000_0000 && k < 0x1_0000_0000
    ensures a != b
  {
    KeyIdCollidesIff(n, k);
  }
}
