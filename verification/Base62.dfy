/** The base62 codec for uint32 values (base62/base62.go). */
module Base62 {
  import opened Text

  const BASE := 62
  const TWO32 := 0x1_0000_0000

  // ---------- Digits ----------

  /** The alphabet: digits, then capital, then small letters. */
  function DigitChar(d: nat): char
    requires d < BASE
  {
    if d < 10 then '0' + d as char else if d < 36 then 'A' + (d - 10) as char else 'a' + (d - 36) as char
  }

  /** The position of the character in the alphabet, or -1. */
  function IndexRune(c: char): (i: int)
    ensures -1 <= i < BASE
    ensures i >= 0 ==> DigitChar(i) == c
  {
    if '0' <= c <= '9' then c as int - '0' as int
    else if 'A' <= c <= 'Z' then c as int - 'A' as int + 10
    else if 'a' <= c <= 'z' then c as int - 'a' as int + 36
    else -1
  }

  const ALPHABET := "0123456789" + "ABCDEFGHIJKLMNOPQRSTUVWXYZ" + "abcdefghijklmnopqrstuvwxyz"

  lemma NumeralAt(d: nat)
    requires d < 10
    ensures DigitChar(d) == ALPHABET[d]
  {
    assert d == 0 || d == 1 || d == 2 || d == 3 || d == 4 || d == 5 || d == 6 || d == 7 ||
           d == 8 || d == 9;
  }

  lemma CapitalAt(d: nat)
    requires 10 <= d < 36
    ensures DigitChar(d) == ALPHABET[d]
  {
    assert d == 10 || d == 11 || d == 12 || d == 13 || d == 14 || d == 15 || d == 16 || d == 17 ||
           d == 18 || d == 19 || d == 20 || d == 21 || d == 22 || d == 23 || d == 24 || d == 25 ||
           d == 26 || d == 27 || d == 28 || d == 29 || d == 30 || d == 31 || d == 32 || d == 33 ||
           d == 34 || d == 35;
  }

  lemma SmallLetterAt(d: nat)
    requires 36 <= d < 62
    ensures DigitChar(d) == ALPHABET[d]
  {
    assert d == 36 || d == 37 || d == 38 || d == 39 || d == 40 || d == 41 || d == 42 || d == 43 ||
           d == 44 || d == 45 || d == 46 || d == 47 || d == 48 || d == 49 || d == 50 || d == 51 ||
           d == 52 || d == 53 || d == 54 || d == 55 || d == 56 || d == 57 || d == 58 || d == 59 ||
           d == 60 || d == 61;
  }

  /** The digits are the characters of the alphabet in order, and no other character is one. */
  lemma DigitsAreTheAlphabet(c: char)
    ensures |ALPHABET| == BASE
    ensures forall d :: 0 <= d < BASE ==> DigitChar(d) == ALPHABET[d]
    ensures forall d :: 0 <= d < BASE ==> (IndexRune(c) == d <==> ALPHABET[d] == c)
  {
    forall d | 0 <= d < BASE ensures DigitChar(d) == ALPHABET[d] && (IndexRune(c) == d <==> ALPHABET[d] == c) {
      if d < 10 {
        NumeralAt(d);
      } else if d < 36 {
        CapitalAt(d);
      } else {
        SmallLetterAt(d);
      }
    }
  }

  lemma IndexOfDigit(d: nat)
    requires d < BASE
    ensures IndexRune(DigitChar(d)) == d
  {
  }

  predicate IsDigits(s: string) {
    forall i :: 0 <= i < |s| ==> IndexRune(s[i]) >= 0
  }

  function Pow62(k: nat): nat {
    if k == 0 then 1 else BASE * Pow62(k - 1)
  }

  /** The positional value of a digit string. */
  function Value(s: string): nat
    requires IsDigits(s)
  {
    if s == "" then 0 else Value(s[..|s| - 1]) * BASE + IndexRune(s[|s| - 1])
  }

  /** No leading zero, except in "0" itself. */
  predicate Canonical(s: string) {
    IsDigits(s) && |s| > 0 && (|s| == 1 || s[0] != '0')
  }

  // ---------- Encode ----------

  function Encoded(n: nat): string {
    if n < BASE then [DigitChar(n)] else Encoded(n / BASE) + [DigitChar(n % BASE)]
  }

  function Reversed(s: string): (r: string)
    ensures |r| == |s|
    ensures forall k :: 0 <= k < |s| ==> r[k] == s[|s| - 1 - k]
  {
    seq(|s|, k requires 0 <= k < |s| => s[|s| - 1 - k])
  }

  /** Reverses in place by swapping from both ends. */
  method Reverse(s: string) returns (r: string)
    ensures r == Reversed(s)
  {
    var runes := new char[|s|](i requires 0 <= i < |s| => s[i]);
    var i, j := 0, |s| - 1;
    while i < j
      invariant 0 <= i <= j + 1 && i + j == |s| - 1
      invariant forall k :: 0 <= k < i ==> runes[k] == s[|s| - 1 - k] && runes[|s| - 1 - k] == s[k]
      invariant forall k :: i <= k <= j ==> runes[k] == s[k]
    {
      runes[i], runes[j] := runes[j], runes[i];
      i, j := i + 1, j - 1;
    }
    r := runes[..];
    forall k | 0 <= k < |s| ensures r[k] == Reversed(s)[k] {
      assert k > j ==> runes[|s| - 1 - (|s| - 1 - k)] == s[|s| - 1 - k];
    }
  }

  /** Encodes by repeated division, least digit first, then reverses. */
  method Encode(num: nat) returns (s: string)
    requires num < TWO32
    ensures s == Encoded(num)
  {
    if num == 0 {
      return [DigitChar(0)];
    }
    var n: nat, encoded := num, "";
    assert Reversed("") == "";
    while n > 0
      invariant Front(n) + Reversed(encoded) == Encoded(num)
    {
      EncodeStep(n, encoded);
      encoded := encoded + [DigitChar(n % BASE)];
      n := n / BASE;
    }
    s := Reverse(encoded);
  }

  /** The digits still to be produced. */
  function Front(n: nat): string {
    if n == 0 then "" else Encoded(n)
  }

  lemma EncodeStep(n: nat, encoded: string)
    requires n > 0
    ensures Front(n / BASE) + Reversed(encoded + [DigitChar(n % BASE)]) == Front(n) + Reversed(encoded)
  {
    var d := DigitChar(n % BASE);
    assert Reversed(encoded + [d]) == [d] + Reversed(encoded);
    assert Front(n) == Front(n / BASE) + [d];
  }

  // ---------- Decode ----------

  /** The uint32 conversion of the float power of the base. Up to exponent 5 the power is exact and
      fits; beyond, Go leaves the conversion to the platform, given by `conv`. */
  function PowWord(k: nat, conv: nat -> nat): nat {
    if k <= 5 then Pow62(k) else conv(k) % TWO32
  }

  /** The sum of digit times power over the first `i` positions, wrapped to 32 bits at each step;
      None at the first character outside the alphabet. */
  function DecodedTo(s: string, i: nat, conv: nat -> nat): Option<nat>
    requires i <= |s|
  {
    if i == 0 then Some(0)
    else
      var r := DecodedTo(s, i - 1, conv);
      var d := IndexRune(s[i - 1]);
      if r.None? || d < 0 then None
      else Some((r.value + d * PowWord(|s| - i, conv) % TWO32) % TWO32)
  }

  function Decoded(s: string, conv: nat -> nat): Option<nat> {
    DecodedTo(s, |s|, conv)
  }

  method Decode(s: string, conv: nat -> nat) returns (r: Option<nat>)
    ensures r == Decoded(s, conv)
  {
    var decoded := 0;
    for i := 0 to |s|
      invariant DecodedTo(s, i, conv) == Some(decoded)
    {
      var index := IndexRune(s[i]);
      if index < 0 {
        StaysNone(s, i + 1, conv);
        return None;
      }
      decoded := (decoded + index * PowWord(|s| - i - 1, conv) % TWO32) % TWO32;
    }
    return Some(decoded);
  }

  lemma {:induction false} StaysNone(s: string, i: nat, conv: nat -> nat)
    requires i <= |s| && DecodedTo(s, i, conv).None?
    ensures Decoded(s, conv).None?
    decreases |s| - i
  {
    if i < |s| {
      StaysNone(s, i + 1, conv);
    }
  }

  // ---------- Laws ----------

  lemma {:induction false} EncodedIsCanonical(n: nat)
    ensures Canonical(Encoded(n)) && Value(Encoded(n)) == n
    ensures n > 0 ==> Encoded(n)[0] != '0'
  {
    IndexOfDigit(n % BASE);
    if n >= BASE {
      EncodedIsCanonical(n / BASE);
      var s := Encoded(n);
      assert s[..|s| - 1] == Encoded(n / BASE);
    } else {
      assert Encoded(n)[..0] == "";
    }
  }

  /** Different canonical strings have different values. */
  lemma {:induction false} CanonicalUnique(s: string)
    requires Canonical(s)
    ensures Encoded(Value(s)) == s
  {
    var n := |s| - 1;
    var front := s[..n];
    if n > 0 {
      assert front[0] == s[0];
      CanonicalUnique(front);
      PositiveValue(front);
      assert Value(s) / BASE == Value(front) && Value(s) % BASE == IndexRune(s[n]);
      assert s == front + [s[n]];
    } else {
      assert front == "";
      assert s == [s[0]];
    }
  }

  lemma {:induction false} PositiveValue(s: string)
    requires Canonical(s) && s[0] != '0'
    ensures Value(s) > 0
  {
    if |s| > 1 {
      assert s[..|s| - 1][0] == s[0];
      PositiveValue(s[..|s| - 1]);
    } else {
      assert s[..0] == "";
      assert DigitChar(0) == '0';
    }
  }

  /** Canonical strings below 2^32 have at most six digits. */
  lemma {:induction false} ValueAtLeast(s: string)
    requires Canonical(s) && s[0] != '0'
    ensures Value(s) >= Pow62(|s| - 1)
  {
    if |s| > 1 {
      assert s[..|s| - 1][0] == s[0];
      ValueAtLeast(s[..|s| - 1]);
    } else {
      PositiveValue(s);
    }
  }

  lemma {:induction false} PowGrows(a: nat, b: nat)
    requires a <= b
    ensures Pow62(a) <= Pow62(b)
    decreases b
  {
    if a < b {
      PowGrows(a, b - 1);
    }
  }

  lemma AtMostSixDigits(n: nat)
    requires n < TWO32
    ensures 1 <= |Encoded(n)| <= 6
  {
    EncodedIsCanonical(n);
    var s := Encoded(n);
    assert Pow62(6) == 56800235584;
    if n > 0 {
      ValueAtLeast(s);
      if |s| > 6 {
        PowGrows(6, |s| - 1);
      }
    }
  }

  lemma ModAdd(a: nat, b: nat)
    ensures (a % TWO32 + b % TWO32) % TWO32 == (a + b) % TWO32
  {
  }

  /** Only the last six digits may differ from zero. */
  predicate ShortEnough(s: string) {
    forall j :: 0 <= j < |s| - 6 ==> s[j] == '0'
  }

  /** The first `i` digits with their weights, summed. */
  function WeightedSum(s: string, i: nat): nat
    requires IsDigits(s) && i <= |s|
  {
    if i == 0 then 0 else WeightedSum(s, i - 1) + IndexRune(s[i - 1]) * Pow62(|s| - i)
  }

  lemma Distribute(v: nat, d: nat, p: nat)
    ensures (v * BASE + d) * p == v * (BASE * p) + d * p
  {
  }

  /** Horner's rule and the weighted sum agree. */
  lemma {:induction false} WeightedSumIsValue(s: string, i: nat)
    requires IsDigits(s) && i <= |s|
    ensures WeightedSum(s, i) == Value(s[..i]) * Pow62(|s| - i)
  {
    if i > 0 {
      WeightedSumIsValue(s, i - 1);
      assert s[..i][..i - 1] == s[..i - 1];
      Distribute(Value(s[..i - 1]), IndexRune(s[i - 1]), Pow62(|s| - i));
    }
  }

  lemma FullSumIsValue(s: string)
    requires IsDigits(s)
    ensures WeightedSum(s, |s|) == Value(s)
  {
    WeightedSumIsValue(s, |s|);
    assert s[..|s|] == s;
  }

  /** The partial sums of Decode, before any claim about wrapping. */
  lemma {:induction false} PartialSum(s: string, i: nat, conv: nat -> nat)
    requires IsDigits(s) && ShortEnough(s) && i <= |s|
    ensures DecodedTo(s, i, conv) == Some(WeightedSum(s, i) % TWO32)
  {
    if i > 0 {
      PartialSum(s, i - 1, conv);
      TermReduced(s, i, conv);
      ModAdd(WeightedSum(s, i - 1), IndexRune(s[i - 1]) * Pow62(|s| - i));
    }
  }

  /** The word that Decode adds at position `i` is the weighted digit, reduced. */
  lemma TermReduced(s: string, i: nat, conv: nat -> nat)
    requires IsDigits(s) && ShortEnough(s) && 0 < i <= |s|
    ensures IndexRune(s[i - 1]) * PowWord(|s| - i, conv) % TWO32 == IndexRune(s[i - 1]) * Pow62(|s| - i) % TWO32
  {
    if |s| - i > 5 {
      assert s[i - 1] == '0';
      assert IndexRune(s[i - 1]) == 0;
      ZeroTimes(PowWord(|s| - i, conv));
      ZeroTimes(Pow62(|s| - i));
    }
  }

  lemma ZeroTimes(x: nat)
    ensures 0 * x == 0
  {
  }

  /** Decode is the positional value modulo 2^32 for digit strings of at most six digits, and for
      longer ones whose extra leading digits are zero, whatever the platform does. */
  lemma DecodeIsValue(s: string, conv: nat -> nat)
    requires IsDigits(s) && ShortEnough(s)
    ensures Decoded(s, conv) == Some(Value(s) % TWO32)
  {
    PartialSum(s, |s|, conv);
    FullSumIsValue(s);
  }

  /** Decode fails exactly on strings with a character outside the alphabet. */
  lemma DecodeFailsExactly(s: string, conv: nat -> nat)
    ensures Decoded(s, conv).None? <==> !IsDigits(s)
  {
    DefinedSoFar(s, |s|, conv);
  }

  lemma {:induction false} DefinedSoFar(s: string, i: nat, conv: nat -> nat)
    requires i <= |s|
    ensures DecodedTo(s, i, conv).Some? <==> forall j :: 0 <= j < i ==> IndexRune(s[j]) >= 0
  {
    if i > 0 {
      DefinedSoFar(s, i - 1, conv);
    }
  }

  lemma ShortDecode(s: string, conv: nat -> nat)
    requires IsDigits(s) && |s| <= 6 && Value(s) < TWO32
    ensures Decoded(s, conv) == Some(Value(s))
  {
    DecodeIsValue(s, conv);
  }

  /** Every uint32 survives encoding and decoding. */
  lemma RoundTrip(n: nat, conv: nat -> nat)
    requires n < TWO32
    ensures Decoded(Encoded(n), conv) == Some(n)
  {
    var s := Encoded(n);
    EncodedIsCanonical(n);
    AtMostSixDigits(n);
    ShortDecode(s, conv);
  }

  /** The word that Decode adds at position `i`, before reduction. */
  function Term(s: string, i: nat, conv: nat -> nat): int
    requires 0 < i <= |s|
  {
    IndexRune(s[i - 1]) * PowWord(|s| - i, conv)
  }

  lemma ShortDecodeNeverWraps(s: string, i: nat, conv: nat -> nat)
    requires IsDigits(s) && |s| <= 6 && Value(s) < TWO32 && 0 < i <= |s|
    ensures DecodedTo(s, i - 1, conv).Some? && DecodedTo(s, i - 1, conv).value + Term(s, i, conv) < TWO32
  {
    PartialSum(s, i - 1, conv);
    SumGrows(s, i - 1, |s|);
    SumGrows(s, i, |s|);
    FullSumIsValue(s);
  }

  /** ... and no product or sum on the way leaves the 32 bits. */
  lemma NoStepWraps(n: nat, i: nat, conv: nat -> nat)
    requires n < TWO32 && 0 < i <= |Encoded(n)|
    ensures var before := DecodedTo(Encoded(n), i - 1, conv);
            before.Some? && before.value + Term(Encoded(n), i, conv) < TWO32
  {
    EncodedIsCanonical(n);
    AtMostSixDigits(n);
    ShortDecodeNeverWraps(Encoded(n), i, conv);
  }

  lemma {:induction false} SumGrows(s: string, i: nat, j: nat)
    requires IsDigits(s) && i <= j <= |s|
    ensures WeightedSum(s, i) <= WeightedSum(s, j)
  {
    if i < j {
      SumGrows(s, i, j - 1);
      var p: nat := Pow62(|s| - j);
      assert IndexRune(s[j - 1]) * p >= 0;
    }
  }

  /** Decoding and encoding again gives the string back exactly when it was canonical and its value
      fits 32 bits; this covers every string, long ones and undecodable ones included. */
  lemma ReencodeExactly(s: string, conv: nat -> nat)
    ensures (Decoded(s, conv).Some? && Decoded(s, conv).value < TWO32 && Encoded(Decoded(s, conv).value) == s) <==>
            (Canonical(s) && Value(s) < TWO32)
  {
    if Canonical(s) && Value(s) < TWO32 {
      CanonicalUnique(s);
      RoundTrip(Value(s), conv);
    } else if Decoded(s, conv).Some? && Decoded(s, conv).value < TWO32 && Encoded(Decoded(s, conv).value) == s {
      EncodedIsCanonical(Decoded(s, conv).value);
      assert false;
    }
  }
}
