/** Decimal formatting of utils.go: the `toChar` closure and
    `numberToString`, which writes a number's digits into a rune buffer. */
module Digits {
  import opened Common

  /** The rune '0'. */
  const ZERO: Rune := 48
  /** The rune ':'. */
  const COLON: Rune := 58

  /** The `toChar` closure: a value up to 10 becomes the rune 48 places
      further on (so a digit becomes its numeral); anything larger becomes
      rune 0. */
  function ToChar(n: int): (r: Rune)
    ensures 0 <= n <= 9 ==> r == ZERO + n
    ensures n > 10 ==> r == 0
  {
    if n <= 10 then ToRune(n + 48) else 0
  }

  predicate IsDigit(r: Rune) {
    ZERO <= r <= ZERO + 9
  }

  /** The digits of n, least significant first, as the first loop of
      `numberToString` produces them. */
  function LsbDigits(n: nat): seq<Rune>
    decreases n
  {
    if n == 0 then [] else [ToChar(n % 10)] + LsbDigits(n / 10)
  }

  function Reverse<T>(s: seq<T>): (r: seq<T>)
    ensures |r| == |s|
  {
    if s == [] then [] else Reverse(s[1..]) + [s[0]]
  }

  lemma {:induction false} ReverseAt<T>(s: seq<T>, k: nat)
    requires k < |s|
    ensures Reverse(s)[k] == s[|s| - 1 - k]
  {
    if k < |s| - 1 {
      ReverseAt(s[1..], k);
    }
  }

  /** What `numberToString` writes for n: a leading '0' and `toChar(n)`
      below 10, the decimal digits of n most significant first otherwise. */
  function DecimalText(n: int): seq<Rune>
  {
    if n < 10 then [ZERO, ToChar(n)] else Reverse(LsbDigits(n))
  }

  /** Reads a sequence of numerals back as a number, most significant
      first; the reference the formatting is checked against. */
  function ParseDecimal(s: seq<Rune>): int
  {
    if s == [] then 0 else ParseDecimal(s[..|s| - 1]) * 10 + (s[|s| - 1] - ZERO)
  }

  function Pow10(k: nat): nat
  {
    if k == 0 then 1 else 10 * Pow10(k - 1)
  }

  lemma {:induction false} LsbDigitsAreDigits(n: nat)
    ensures forall k :: 0 <= k < |LsbDigits(n)| ==> IsDigit(LsbDigits(n)[k])
  {
    if n > 0 {
      LsbDigitsAreDigits(n / 10);
    }
  }

  /** A positive n has |LsbDigits(n)| decimal digits: it lies between the
      matching powers of ten. */
  lemma {:induction false} LsbDigitsCount(n: nat)
    requires n >= 1
    ensures |LsbDigits(n)| >= 1
    ensures Pow10(|LsbDigits(n)| - 1) <= n < Pow10(|LsbDigits(n)|)
  {
    if n >= 10 {
      LsbDigitsCount(n / 10);
    }
  }

  lemma {:induction false} ParseReversedDigits(n: nat)
    ensures ParseDecimal(Reverse(LsbDigits(n))) == n
  {
    if n > 0 {
      var rest := Reverse(LsbDigits(n / 10));
      assert Reverse(LsbDigits(n)) == rest + [ToChar(n % 10)];
      assert (rest + [ToChar(n % 10)])[..|rest|] == rest;
      ParseReversedDigits(n / 10);
    }
  }

  /** Round trip: for every n >= 0 the text `numberToString` writes consists
      of numerals and reads back as n. */
  lemma DecimalTextParses(n: int)
    requires n >= 0
    ensures forall k :: 0 <= k < |DecimalText(n)| ==> IsDigit(DecimalText(n)[k])
    ensures ParseDecimal(DecimalText(n)) == n
  {
    if n < 10 {
      assert DecimalText(n)[..1] == [ZERO];
      assert ParseDecimal([ZERO]) == 0;
    } else {
      LsbDigitsAreDigits(n);
      forall k | 0 <= k < |DecimalText(n)| ensures IsDigit(DecimalText(n)[k]) {
        ReverseAt(LsbDigits(n), k);
      }
      ParseReversedDigits(n);
    }
  }

  /** From 10 on, the text is exactly as long as n has digits and does not
      start with '0'; below 10 it is always two runes long. */
  lemma DecimalTextLength(n: int)
    ensures n < 10 ==> |DecimalText(n)| == 2
    ensures n >= 10 ==> Pow10(|DecimalText(n)| - 1) <= n < Pow10(|DecimalText(n)|)
    ensures n >= 10 ==> DecimalText(n)[0] != ZERO
  {
    if n >= 10 {
      LsbDigitsCount(n);
      var d := LsbDigits(n);
      ReverseAt(d, 0);
      LeadingDigitNonZero(n);
    }
  }

  lemma {:induction false} LeadingDigitNonZero(n: nat)
    requires n >= 1
    ensures |LsbDigits(n)| >= 1 && LsbDigits(n)[|LsbDigits(n)| - 1] != ZERO
  {
    if n >= 10 {
      LeadingDigitNonZero(n / 10);
    }
  }

  /** The three counters of the add window stay within three runes. */
  lemma DecimalTextFitsThree(n: int)
    requires n <= 999
    ensures |DecimalText(n)| <= 3
  {
    if n >= 10 {
      DecimalTextLength(n);
      if |DecimalText(n)| > 3 {
        Pow10Grows(3, |DecimalText(n)| - 1);
      }
    }
  }

  lemma {:induction false} Pow10Grows(j: nat, k: nat)
    requires j <= k
    ensures Pow10(j) <= Pow10(k)
  {
    if j < k {
      Pow10Grows(j, k - 1);
    }
  }

  /** The second loop of `numberToString`: reverses buf[..n] in place by
      swapping from both ends. */
  method ReverseFront(buf: array<Rune>, n: nat)
    requires n <= buf.Length
    modifies buf
    ensures buf[..n] == Reverse(old(buf[..n]))
    ensures buf[n..] == old(buf[n..])
  {
    ghost var d := buf[..n];
    var i, j := 0, n - 1;
    while i < j
      invariant 0 <= i <= n && j == n - 1 - i
      invariant forall k :: 0 <= k < i ==> buf[k] == d[n - 1 - k] && buf[n - 1 - k] == d[k]
      invariant forall k :: i <= k < n - i ==> buf[k] == d[k]
      invariant forall k :: n <= k < buf.Length ==> buf[k] == old(buf[k])
    {
      buf[i], buf[j] := buf[j], buf[i];
      i, j := i + 1, j - 1;
    }
    forall k | 0 <= k < n ensures buf[k] == Reverse(d)[k] {
      ReverseAt(d, k);
    }
  }

  /** `numberToString(n, buf)`: writes DecimalText(n) at the front of buf
      and returns its length. The source indexes past the end of buf (a
      panic) when buf is too short, so the caller must supply the room. */
  method NumberToString(n: int, buf: array<Rune>) returns (last: nat)
    requires n < 10 ==> 2 <= buf.Length
    requires n >= 10 ==> |LsbDigits(n)| <= buf.Length
    modifies buf
    ensures last == |DecimalText(n)| <= buf.Length
    ensures buf[..last] == DecimalText(n)
    ensures buf[last..] == old(buf[last..])
  {
    var rem := n;
    last := 0;
    if n < 10 {
      buf[0] := ZERO;
      buf[1] := ToChar(n);
      last := 2;
    } else {
      ghost var d := LsbDigits(n);
      while rem > 0
        invariant 0 <= rem && last <= |d|
        invariant d[last..] == LsbDigits(rem)
        invariant forall k :: 0 <= k < last ==> buf[k] == d[k]
        invariant forall k :: last <= k < buf.Length ==> buf[k] == old(buf[k])
        decreases rem
      {
        var digit := rem % 10;
        buf[last] := ToChar(digit);
        rem := rem / 10;
        last := last + 1;
      }
      assert buf[..last] == d;
      ReverseFront(buf, last);
    }
  }
}
