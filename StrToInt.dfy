/**
 * The program's ad hoc decimal parser `str_to_int`: it turns a C string of at
 * most 19 characters into a uint64_t through an out-parameter and returns a
 * status code (0 OK, 1 too long, 2 not a number).
 *
 * A C string is modelled by the bytes `strlen` counts, as a `seq<byte>`.
 * The floating-point `pow(10, len - i - 1)` is modelled by exact integer
 * powers of ten, and `*number` is accumulated as an unbounded integer.
 */
module Utilities {
  import opened CTypes

  /** Longest string `str_to_int` accepts. */
  const MaxDigits: nat := 19

  /** The three outcomes of `str_to_int`. */
  datatype Status = Ok | TooLong | NotANumber {
    /** The uint32_t value `str_to_int` returns for this outcome. */
    function Code(): uint32 {
      match this
      case Ok => 0
      case TooLong => 1
      case NotANumber => 2
    }
  }

  /** The digit test as written: `c - 0x30 <= 0x9`, computed on a signed int. */
  predicate PassesDigitTest(c: byte) {
    c as int - 0x30 <= 9
  }

  /** A decimal digit, '0' to '9'. */
  predicate IsDigit(c: byte) {
    0x30 <= c <= 0x39
  }

  predicate AllDigits(s: seq<byte>) {
    forall i :: 0 <= i < |s| ==> IsDigit(s[i])
  }

  /** `c - 0x30` as the signed int the source computes. */
  function DigitValue(c: byte): int {
    c as int - 0x30
  }

  function Pow10(n: nat): (p: nat)
    ensures p >= 1
  {
    if n == 0 then 1 else 10 * Pow10(n - 1)
  }

  /** The index of the first byte of `s` that `accept` rejects, or |s| when it rejects none. */
  function FirstRejected(s: seq<byte>, accept: byte -> bool): (k: nat)
    ensures k <= |s|
    ensures forall i :: 0 <= i < k ==> accept(s[i])
    ensures k < |s| ==> !accept(s[k])
  {
    if s == [] || !accept(s[0]) then 0 else 1 + FirstRejected(s[1..], accept)
  }

  /** What the loop has added to `*number` after the bytes `s[..k]`: each byte's
      value placed at `10^(|s| - i - 1)`. */
  function Accumulated(s: seq<byte>, k: nat): int
    requires k <= |s|
  {
    if k == 0 then 0 else Accumulated(s, k - 1) + DigitValue(s[k - 1]) * Pow10(|s| - k)
  }

  /** The decimal value of a digit string, most significant digit first (Horner's rule). */
  function DecimalValue(d: seq<byte>): int {
    if d == [] then 0 else 10 * DecimalValue(d[..|d| - 1]) + DigitValue(d[|d| - 1])
  }

  /**
   * The loop of `str_to_int`, with the per-byte test passed in as `accept`:
   * `*number` is cleared first, a string longer than 19 bytes is refused before
   * any byte is looked at, and the first rejected byte stops the loop with
   * `*number` holding what the bytes before it added.
   */
  method ParseDecimal(s: seq<byte>, accept: byte -> bool) returns (status: Status, number: int)
    ensures |s| > MaxDigits ==> status == TooLong && number == 0
    ensures |s| <= MaxDigits ==>
              var k := FirstRejected(s, accept);
              status == (if k < |s| then NotANumber else Ok) && number == Accumulated(s, k)
  {
    number := 0;
    var len := |s|;
    if len > MaxDigits {
      return TooLong, number;
    }
    var i := 0;
    while i < len
      invariant 0 <= i <= len
      invariant forall j :: 0 <= j < i ==> accept(s[j])
      invariant number == Accumulated(s, i)
    {
      var c := s[i];
      if accept(c) {
        number := number + DigitValue(c) * Pow10(len - i - 1);
      } else {
        FirstRejectedAt(s, accept, i);
        return NotANumber, number;
      }
      i := i + 1;
    }
    FirstRejectedAt(s, accept, len);
    return Ok, number;
  }

  /**
   * `str_to_int` as written. A string of at most 19 bytes is accepted exactly
   * when every byte is at most '9' (so bytes below '0' pass); an all-digit
   * string yields its decimal value, which fits in a uint64_t.
   */
  method StrToInt(s: seq<byte>) returns (status: Status, number: int)
    ensures |s| > MaxDigits ==> status == TooLong && number == 0
    ensures |s| <= MaxDigits ==>
              var k := FirstRejected(s, PassesDigitTest);
              status == (if k < |s| then NotANumber else Ok) && number == Accumulated(s, k)
    ensures |s| <= MaxDigits ==> (status == Ok <==> forall i :: 0 <= i < |s| ==> s[i] <= 0x39)
    ensures |s| <= MaxDigits && AllDigits(s) ==>
              status == Ok && number == DecimalValue(s) && 0 <= number < 0x1_0000_0000_0000_0000
    ensures status.Code() ==
              if |s| > MaxDigits then 1
              else if FirstRejected(s, PassesDigitTest) < |s| then 2
              else 0
  {
    status, number := ParseDecimal(s, PassesDigitTest);
    if |s| <= MaxDigits && AllDigits(s) {
      AccumulatedIsScaledPrefix(s, |s|);
      assert s[..|s|] == s;
      DigitsFitUint64(s);
    }
  }

  /**
   * `str_to_int` with the digit test it evidently intends, `'0' <= c <= '9'`:
   * a string of at most 19 bytes is accepted exactly when it is all digits,
   * and every value it leaves in `*number` is a uint64_t.
   */
  method StrToIntStrict(s: seq<byte>) returns (status: Status, number: uint64)
    ensures |s| > MaxDigits ==> status == TooLong && number == 0
    ensures |s| <= MaxDigits ==> status == if AllDigits(s) then Ok else NotANumber
    ensures status.Code() == if |s| > MaxDigits then 1 else if AllDigits(s) then 0 else 2
    ensures status == Ok ==> number as int == DecimalValue(s)
    ensures status == NotANumber ==>
              var k := FirstRejected(s, IsDigit);
              k < |s| && !IsDigit(s[k]) && number as int == DecimalValue(s[..k]) * Pow10(|s| - k)
  {
    var n;
    status, n := ParseDecimal(s, IsDigit);
    if |s| > MaxDigits {
      return status, 0;
    }
    var k := FirstRejected(s, IsDigit);
    AccumulatedIsScaledPrefix(s, k);
    assert AllDigits(s[..k]);
    ScaledPrefixFitsUint64(s, k);
    assert s[..|s|] == s;
    number := n as uint64;
  }

  /** FirstRejected(s, accept) is the k where the loop stops when every byte before k passes. */
  lemma FirstRejectedAt(s: seq<byte>, accept: byte -> bool, k: nat)
    requires k <= |s|
    requires forall j :: 0 <= j < k ==> accept(s[j])
    requires k < |s| ==> !accept(s[k])
    ensures FirstRejected(s, accept) == k
  {
  }

  /** After k bytes the accumulator is the decimal value of s[..k] shifted left by the
      |s| - k places still to come. */
  lemma {:induction false} AccumulatedIsScaledPrefix(s: seq<byte>, k: nat)
    requires k <= |s|
    ensures Accumulated(s, k) == DecimalValue(s[..k]) * Pow10(|s| - k)
  {
    if k > 0 {
      AccumulatedIsScaledPrefix(s, k - 1);
      var d, v, p := DecimalValue(s[..k - 1]), DigitValue(s[k - 1]), Pow10(|s| - k);
      assert s[..k][..k - 1] == s[..k - 1];
      assert DecimalValue(s[..k]) == 10 * d + v;
      assert Pow10(|s| - (k - 1)) == 10 * p;
      calc {
        Accumulated(s, k);
        d * (10 * p) + v * p;
        { assert d * (10 * p) == (10 * d) * p; }
        (10 * d + v) * p;
      }
    }
  }

  /** An all-digit string's value lies in [0, 10^|d|). */
  lemma {:induction false} DecimalValueBounds(d: seq<byte>)
    requires AllDigits(d)
    ensures 0 <= DecimalValue(d) < Pow10(|d|)
  {
    if d != [] {
      var init := d[..|d| - 1];
      assert AllDigits(init) by {
        forall i | 0 <= i < |init| ensures IsDigit(init[i]) {
          assert init[i] == d[i];
        }
      }
      DecimalValueBounds(init);
      assert IsDigit(d[|d| - 1]);
    }
  }

  lemma {:induction false} Pow10Add(m: nat, n: nat)
    ensures Pow10(m) * Pow10(n) == Pow10(m + n)
  {
    if m > 0 {
      Pow10Add(m - 1, n);
      assert Pow10(m) * Pow10(n) == 10 * (Pow10(m - 1) * Pow10(n));
    }
  }

  lemma ScaledBelow(a: int, b: int, c: int)
    requires 0 <= a < b && 1 <= c
    ensures 0 <= a * c < b * c
  {
  }

  /** A digit string of at most 19 bytes has a value below 10^19, hence below 2^64. */
  lemma DigitsFitUint64(d: seq<byte>)
    requires AllDigits(d) && |d| <= MaxDigits
    ensures 0 <= DecimalValue(d) < Pow10(|d|) < 0x1_0000_0000_0000_0000
  {
    DecimalValueBounds(d);
    Pow10Fits(|d|);
  }

  /** The partial value left by a digit prefix of a string of at most 19 bytes is a uint64_t. */
  lemma ScaledPrefixFitsUint64(s: seq<byte>, k: nat)
    requires k <= |s| <= MaxDigits && AllDigits(s[..k])
    ensures 0 <= DecimalValue(s[..k]) * Pow10(|s| - k) < 0x1_0000_0000_0000_0000
  {
    var d, p := DecimalValue(s[..k]), Pow10(|s| - k);
    DecimalValueBounds(s[..k]);
    ScaledBelow(d, Pow10(k), p);
    Pow10Add(k, |s| - k);
    assert k + (|s| - k) == |s|;
    Pow10Fits(|s|);
  }

  lemma Pow10Fits(n: nat)
    requires n <= MaxDigits
    ensures Pow10(n) < 0x1_0000_0000_0000_0000
  {
    Pow10Add(n, MaxDigits - n);
    Pow10Nineteen();
  }

  lemma Pow10Nineteen()
    ensures Pow10(MaxDigits) == 10_000_000_000_000_000_000
  {
    assert Pow10(1) == 10;
    assert Pow10(2) == 100;
    assert Pow10(3) == 1000;
    assert Pow10(4) == 10000;
    assert Pow10(5) == 100000;
    assert Pow10(6) == 1000000;
    assert Pow10(7) == 10000000;
    assert Pow10(8) == 100000000;
    assert Pow10(9) == 1000000000;
    assert Pow10(10) == 10000000000;
    assert Pow10(11) == 100000000000;
    assert Pow10(12) == 1000000000000;
    assert Pow10(13) == 10000000000000;
    assert Pow10(14) == 100000000000000;
    assert Pow10(15) == 1000000000000000;
    assert Pow10(16) == 10000000000000000;
    assert Pow10(17) == 100000000000000000;
    assert Pow10(18) == 1000000000000000000;
    assert Pow10(19) == 10000000000000000000;
  }

  /** The parse of a string of at most 19 bytes reads no byte past the first rejected one:
      any string of the same length that agrees up to and including it stops at the
      same place with the same accumulated value. */
  lemma {:induction false} ParseSeesOnlyPrefix(s: seq<byte>, t: seq<byte>, accept: byte -> bool)
    requires |s| == |t|
    requires FirstRejected(s, accept) < |s|
    requires s[..FirstRejected(s, accept) + 1] == t[..FirstRejected(s, accept) + 1]
    ensures FirstRejected(t, accept) == FirstRejected(s, accept)
    ensures Accumulated(t, FirstRejected(s, accept)) == Accumulated(s, FirstRejected(s, accept))
  {
    var k := FirstRejected(s, accept);
    forall j | 0 <= j <= k ensures t[j] == s[j] {
      assert t[j] == t[..k + 1][j];
    }
    FirstRejectedAt(t, accept, k);
    AccumulatedDependsOnPrefix(s, t, k);
  }

  lemma {:induction false} AccumulatedDependsOnPrefix(s: seq<byte>, t: seq<byte>, k: nat)
    requires |s| == |t| && k <= |s|
    requires forall j :: 0 <= j < k ==> s[j] == t[j]
    ensures Accumulated(s, k) == Accumulated(t, k)
  {
    if k > 0 {
      AccumulatedDependsOnPrefix(s, t, k - 1);
    }
  }

  /** The signed digit test lets "-1" through: its first byte is no digit, yet no
      byte is rejected, so `str_to_int` returns 0 (OK) for it, with the exact sum
      -29, which no uint64_t holds. */
  lemma SignedDigitTestAcceptsMinusOne()
    ensures var s: seq<byte> := [0x2D, 0x31];
            !AllDigits(s) && FirstRejected(s, PassesDigitTest) == |s| && FirstRejected(s, IsDigit) == 0
            && Accumulated(s, |s|) == -29
  {
  }

  /** A byte below '0' after a digit keeps every running sum non-negative: "1/" is
      accepted with the sum 10 - 1 == 9. */
  lemma SignedDigitTestAcceptsOneSlash()
    ensures var s: seq<byte> := [0x31, 0x2F];
            !AllDigits(s) && FirstRejected(s, PassesDigitTest) == |s|
            && Accumulated(s, 1) == 10 && Accumulated(s, |s|) == 9
  {
  }

  /** Every byte below '0' passes the signed test, and those above '9' are the only ones rejected. */
  lemma SignedDigitTestIsAtMostNine(c: byte)
    ensures PassesDigitTest(c) <==> c <= 0x39
    ensures c < 0x30 ==> PassesDigitTest(c) && !IsDigit(c)
  {
  }
}
