/** The Australian Business Number checksum. */
module Abn {

  /** The characters a regular expression's `\s` matches. */
  predicate IsSpace(c: char) {
    var n := c as int;
    || 0x9 <= n <= 0xd || n == 0x20 || n == 0xa0 || n == 0x1680 || 0x2000 <= n <= 0x200a
    || n == 0x2028 || n == 0x2029 || n == 0x202f || n == 0x205f || n == 0x3000 || n == 0xfeff
  }

  predicate IsDigit(c: char) {
    '0' <= c <= '9'
  }

  function Strip(s: string): string {
    if s == "" then ""
    else Strip(s[..|s| - 1]) + if IsSpace(s[|s| - 1]) then "" else [s[|s| - 1]]
  }

  predicate ElevenDigits(s: string) {
    |s| == 11 && forall i | 0 <= i < 11 :: IsDigit(s[i])
  }

  function DigitOf(c: char): int
    requires IsDigit(c)
  {
    c as int - '0' as int
  }

  function Weight(i: nat): int
    requires i < 11
  {
    if i == 0 then 10 else 2 * i - 1
  }

  /** One is subtracted from the first digit only. */
  function Term(digits: string, i: nat): int
    requires ElevenDigits(digits) && i < 11
  {
    (if i == 0 then DigitOf(digits[i]) - 1 else DigitOf(digits[i])) * Weight(i)
  }

  function Sum(digits: string, n: nat): int
    requires ElevenDigits(digits) && n <= 11
  {
    if n == 0 then 0 else Sum(digits, n - 1) + Term(digits, n - 1)
  }

  /** The remainder operator of the source: it takes the sign of the dividend. */
  function Remainder(a: int, b: int): int
    requires b > 0
  {
    if a >= 0 then a % b else -((-a) % b)
  }

  predicate IsValidAbnChecksum(abn: string) {
    var digits := Strip(abn);
    ElevenDigits(digits) && Remainder(Sum(digits, 11), 89) == 0
  }

  // ---------------------------------------------------------------- stripping

  lemma {:induction false} StripConcat(a: string, b: string)
    ensures Strip(a + b) == Strip(a) + Strip(b)
  {
    if b == "" {
      assert a + b == a;
    } else {
      assert (a + b)[..|a + b| - 1] == a + b[..|b| - 1];
      StripConcat(a, b[..|b| - 1]);
    }
  }

  /** Where the character at `p` lands once spaces are stripped. */
  function Rank(s: string, p: nat): nat
    requires p < |s|
  {
    |Strip(s[..p])|
  }

  lemma StripOne(c: char)
    ensures Strip([c]) == if IsSpace(c) then "" else [c]
  {
    assert [c][..0] == "";
  }

  lemma StripAt(s: string, p: nat)
    requires p < |s| && !IsSpace(s[p])
    ensures Strip(s) == Strip(s[..p]) + [s[p]] + Strip(s[p + 1..])
  {
    hide Strip;
    assert s == s[..p] + [s[p]] + s[p + 1..];
    StripConcat(s[..p] + [s[p]], s[p + 1..]);
    StripConcat(s[..p], [s[p]]);
    StripOne(s[p]);
  }

  /** Overwriting a character that is not a space overwrites the one it lands on. */
  lemma StripUpdate(s: string, p: nat, c: char)
    requires p < |s| && !IsSpace(s[p]) && !IsSpace(c)
    ensures Rank(s, p) < |Strip(s)| && Strip(s)[Rank(s, p)] == s[p]
    ensures Strip(s[p := c]) == Strip(s)[Rank(s, p) := c]
  {
    StripAt(s, p);
    StripAt(s[p := c], p);
    assert s[p := c][..p] == s[..p] && s[p := c][p + 1..] == s[p + 1..];
    UpdateMiddle(Strip(s[..p]), s[p], Strip(s[p + 1..]), c);
  }

  lemma UpdateMiddle(a: string, x: char, b: string, c: char)
    ensures (a + [x] + b)[|a|] == x
    ensures (a + [x] + b)[|a| := c] == a + [c] + b
  {
  }

  lemma RanksIncrease(s: string, p: nat, q: nat)
    requires p < q < |s| && !IsSpace(s[p])
    ensures Rank(s, p) < Rank(s, q)
  {
    assert s[..q] == s[..p] + s[p..q] && s[p..q] == [s[p]] + s[p + 1..q];
    StripConcat(s[..p], s[p..q]);
    StripConcat([s[p]], s[p + 1..q]);
    StripOne(s[p]);
  }

  /** The whitespace of ECMAScript, code by code. */
  predicate Blank(c: char) {
    var n := c as int;
    || n == 9 || n == 10 || n == 11 || n == 12 || n == 13 || n == 32 || n == 160 || n == 5760
    || 8192 <= n <= 8202 || n == 8232 || n == 8233 || n == 8239 || n == 8287 || n == 12288 || n == 65279
  }

  /** Only digits count: a blank anywhere changes nothing, and anything else makes the number invalid. */
  lemma OnlyDigitsCount(a: string, c: char, b: string)
    ensures Blank(c) ==> (IsValidAbnChecksum(a + [c] + b) <==> IsValidAbnChecksum(a + b))
    ensures !Blank(c) && !('0' <= c <= '9') ==> !IsValidAbnChecksum(a + [c] + b)
  {
    hide Strip;
    StripConcat(a + [c], b);
    StripConcat(a, [c]);
    StripConcat(a, b);
    StripOne(c);
    assert Strip(a) + [] == Strip(a);
    if !Blank(c) && !('0' <= c <= '9') {
      assert (Strip(a) + [c] + Strip(b))[|Strip(a)|] == c;
    }
  }

  // ---------------------------------------------------------------- the weighted sum

  /** The value of the digit at position `i`. */
  function D(digits: string, i: nat): int
    requires ElevenDigits(digits) && i < 11
  {
    digits[i] as int - '0' as int
  }

  lemma FirstHalfOfSum(digits: string)
    requires ElevenDigits(digits)
    ensures Sum(digits, 5) == 10 * (D(digits, 0) - 1) + D(digits, 1) + 3 * D(digits, 2) + 5 * D(digits, 3) + 7 * D(digits, 4)
  {
    assert Sum(digits, 1) == 10 * (D(digits, 0) - 1);
    assert Sum(digits, 2) == Sum(digits, 1) + D(digits, 1);
    assert Sum(digits, 3) == Sum(digits, 2) + 3 * D(digits, 2);
    assert Sum(digits, 4) == Sum(digits, 3) + 5 * D(digits, 3);
  }

  lemma SecondHalfOfSum(digits: string)
    requires ElevenDigits(digits)
    ensures Sum(digits, 11) == Sum(digits, 5)
         + 9 * D(digits, 5) + 11 * D(digits, 6) + 13 * D(digits, 7) + 15 * D(digits, 8) + 17 * D(digits, 9) + 19 * D(digits, 10)
  {
    assert Sum(digits, 6) == Sum(digits, 5) + 9 * D(digits, 5);
    assert Sum(digits, 7) == Sum(digits, 6) + 11 * D(digits, 6);
    assert Sum(digits, 8) == Sum(digits, 7) + 13 * D(digits, 7);
    assert Sum(digits, 9) == Sum(digits, 8) + 15 * D(digits, 8);
    assert Sum(digits, 10) == Sum(digits, 9) + 17 * D(digits, 9);
  }

  /**
   * A number of eleven digits, blanks aside, is valid exactly when 89 divides the sum of its digits
   * weighted 10, 1, 3, 5, 7, 9, 11, 13, 15, 17 and 19, the first digit less one.
   */
  lemma ValidIffWeightedSum(abn: string)
    ensures IsValidAbnChecksum(abn)
       <==> var d := Strip(abn);
            && ElevenDigits(d)
            && (10 * (D(d, 0) - 1) + 1 * D(d, 1) + 3 * D(d, 2) + 5 * D(d, 3) + 7 * D(d, 4) + 9 * D(d, 5)
                + 11 * D(d, 6) + 13 * D(d, 7) + 15 * D(d, 8) + 17 * D(d, 9) + 19 * D(d, 10)) % 89 == 0
  {
    hide Sum, Strip;
    if ElevenDigits(Strip(abn)) {
      FirstHalfOfSum(Strip(abn));
      SecondHalfOfSum(Strip(abn));
      ChecksumIsModular(Strip(abn));
    }
  }

  // ---------------------------------------------------------------- the sum modulo 89

  lemma {:induction false} SumRange(digits: string, n: nat)
    requires ElevenDigits(digits) && n <= 11
    ensures -10 <= Sum(digits, n) && (n > 0 && digits[0] != '0' ==> Sum(digits, n) >= 0)
  {
    if n > 0 {
      SumRange(digits, n - 1);
    }
  }

  /** A negative sum is never a multiple of 89 here, so the remainder's sign does not matter. */
  lemma ChecksumIsModular(digits: string)
    requires ElevenDigits(digits)
    ensures Remainder(Sum(digits, 11), 89) == 0 <==> Sum(digits, 11) % 89 == 0
  {
    SumRange(digits, 11);
  }

  lemma {:induction false} SumAfterUpdate(digits: string, i: nat, c: char, n: nat)
    requires ElevenDigits(digits) && i < 11 && IsDigit(c) && n <= 11
    ensures ElevenDigits(digits[i := c])
    ensures Sum(digits[i := c], n)
         == Sum(digits, n) + if i < n then Weight(i) * (DigitOf(c) - DigitOf(digits[i])) else 0
  {
    if n > 0 {
      SumAfterUpdate(digits, i, c, n - 1);
      TermAfterUpdate(digits, i, c, n - 1);
    }
  }

  lemma TermAfterUpdate(digits: string, i: nat, c: char, k: nat)
    requires ElevenDigits(digits) && i < 11 && IsDigit(c) && k < 11 && ElevenDigits(digits[i := c])
    ensures Term(digits[i := c], k)
         == Term(digits, k) + if i == k then Weight(i) * (DigitOf(c) - DigitOf(digits[i])) else 0
  {
    if i == k {
      var shift := if k == 0 then 1 else 0;
      Distribute(DigitOf(c) - shift, DigitOf(digits[k]) - shift, Weight(k));
    }
  }

  lemma Distribute(x: int, y: int, w: int)
    ensures x * w == y * w + w * (x - y)
  {
  }

  /** 89 is prime and exceeds both factors. */
  lemma NotMultiple(a: int, b: int)
    requires -19 <= a <= 19 && a != 0 && -9 <= b <= 9 && b != 0
    ensures (a * b) % 89 != 0
  {
    var k := (a * b) / 89;
    if a * b == 89 * k {
      PositiveNotMultiple(if a > 0 then a else -a, if b > 0 then b else -b, if a * b > 0 then k else -k);
    }
  }

  lemma PositiveNotMultiple(a: int, b: int, k: int)
    requires 0 < a <= 19 && 0 < b <= 9
    ensures a * b != 89 * k
  {
    assert || b == 1 || b == 2 || b == 3 || b == 4 || b == 5 || b == 6 || b == 7 || b == 8 || b == 9;
  }

  /** Changing one digit of a valid number, spaces and all, gives an invalid one. */
  lemma OneWrongDigitIsCaught(abn: string, p: nat, c: char)
    requires IsValidAbnChecksum(abn) && p < |abn| && IsDigit(abn[p]) && IsDigit(c) && c != abn[p]
    ensures !IsValidAbnChecksum(abn[p := c])
  {
    var digits, i := Strip(abn), Rank(abn, p);
    StripUpdate(abn, p, c);
    SumAfterUpdate(digits, i, c, 11);
    ChecksumIsModular(digits);
    ChecksumIsModular(digits[i := c]);
    NotMultiple(Weight(i), DigitOf(c) - DigitOf(digits[i]));
    DifferenceOfMultiples(Sum(digits, 11), Weight(i) * (DigitOf(c) - DigitOf(digits[i])));
  }

  lemma DifferenceOfMultiples(x: int, d: int)
    requires x % 89 == 0 && d % 89 != 0
    ensures (x + d) % 89 != 0
  {
  }

  lemma RankAfterUpdate(s: string, p: nat, q: nat, c: char)
    requires p < q < |s| && !IsSpace(s[p]) && !IsSpace(c)
    ensures Rank(s[p := c], q) == Rank(s, q)
  {
    StripUpdate(s[..q], p, c);
    assert s[p := c][..q] == s[..q][p := c];
  }

  /** Swapping two characters swaps the two they land on. */
  lemma StripSwap(s: string, p: nat, q: nat)
    requires p < q < |s| && !IsSpace(s[p]) && !IsSpace(s[q])
    ensures Rank(s, p) < Rank(s, q) < |Strip(s)|
    ensures Strip(s)[Rank(s, p)] == s[p] && Strip(s)[Rank(s, q)] == s[q]
    ensures Strip(s[p := s[q]][q := s[p]]) == Strip(s)[Rank(s, p) := s[q]][Rank(s, q) := s[p]]
  {
    RanksIncrease(s, p, q);
    RankAfterUpdate(s, p, q, s[q]);
    StripUpdate(s, p, s[q]);
    StripUpdate(s, q, s[p]);
    StripUpdate(s[p := s[q]], q, s[p]);
  }

  lemma SumAfterSwap(digits: string, i: nat, j: nat)
    requires ElevenDigits(digits) && i < j < 11
    ensures var swapped := digits[i := digits[j]][j := digits[i]];
            && ElevenDigits(swapped)
            && Sum(swapped, 11) == Sum(digits, 11) + (Weight(i) - Weight(j)) * (DigitOf(digits[j]) - DigitOf(digits[i]))
  {
    SumAfterUpdate(digits, i, digits[j], 11);
    SumAfterUpdate(digits[i := digits[j]], j, digits[i], 11);
    Factor(Weight(i), Weight(j), DigitOf(digits[j]) - DigitOf(digits[i]));
  }

  lemma Factor(w: int, v: int, d: int)
    ensures w * d + v * (-d) == (w - v) * d
  {
  }

  /** Swapping two unequal digits of a valid number, wherever they are, gives an invalid one. */
  lemma SwappedDigitsAreCaught(abn: string, p: nat, q: nat)
    requires IsValidAbnChecksum(abn) && p < q < |abn|
    requires IsDigit(abn[p]) && IsDigit(abn[q]) && abn[p] != abn[q]
    ensures !IsValidAbnChecksum(abn[p := abn[q]][q := abn[p]])
  {
    var digits, i, j := Strip(abn), Rank(abn, p), Rank(abn, q);
    StripSwap(abn, p, q);
    SumAfterSwap(digits, i, j);
    ChecksumIsModular(digits);
    ChecksumIsModular(digits[i := digits[j]][j := digits[i]]);
    var delta := DigitOf(digits[j]) - DigitOf(digits[i]);
    NotMultiple(Weight(i) - Weight(j), delta);
    DifferenceOfMultiples(Sum(digits, 11), (Weight(i) - Weight(j)) * delta);
  }

  // ---------------------------------------------------------------- completing a number

  predicate NineDigits(s: string) {
    |s| == 9 && forall i | 0 <= i < 9 :: IsDigit(s[i])
  }

  /** What the last nine digits contribute: the sum behind the prefix 10, which contributes nothing. */
  function Tail(suffix: string): int
    requires NineDigits(suffix)
  {
    Sum("10" + suffix, 11)
  }

  /** What a two-digit prefix contributes. */
  function Head(a: char, b: char): int
    requires IsDigit(a) && IsDigit(b)
  {
    10 * (DigitOf(a) - 1) + DigitOf(b)
  }

  lemma {:induction false} NoSpacesToStrip(s: string)
    requires forall i | 0 <= i < |s| :: IsDigit(s[i])
    ensures Strip(s) == s
  {
    if s != "" {
      NoSpacesToStrip(s[..|s| - 1]);
    }
  }

  lemma ValidIffHeadMeetsTail(a: char, b: char, suffix: string)
    requires IsDigit(a) && IsDigit(b) && NineDigits(suffix)
    ensures IsValidAbnChecksum([a, b] + suffix) <==> (Head(a, b) + Tail(suffix)) % 89 == 0
  {
    NoSpacesToStrip([a, b] + suffix);
    SumOfPrefix(a, b, suffix);
    ChecksumIsModular([a, b] + suffix);
  }

  lemma SumOfPrefix(a: char, b: char, suffix: string)
    requires IsDigit(a) && IsDigit(b) && NineDigits(suffix)
    ensures ElevenDigits([a, b] + suffix) && Sum([a, b] + suffix, 11) == Head(a, b) + Tail(suffix)
  {
    var ten := "10" + suffix;
    SumAfterUpdate(ten, 0, a, 11);
    SumAfterUpdate(ten[0 := a], 1, b, 11);
    assert ten[0 := a][1 := b] == [a, b] + suffix;
  }

  function CharOf(d: int): (c: char)
    requires 0 <= d <= 9
    ensures IsDigit(c) && DigitOf(c) == d
  {
    (d + '0' as int) as char
  }

  /** Every nine digits have a prefix, not starting with zero, that makes a valid number. */
  lemma EverySuffixCompletes(suffix: string) returns (a: char, b: char)
    requires NineDigits(suffix)
    ensures IsDigit(a) && a != '0' && IsDigit(b) && IsValidAbnChecksum([a, b] + suffix)
  {
    var head := (-Tail(suffix)) % 89;
    a, b := CharOf(head / 10 + 1), CharOf(head % 10);
    assert Head(a, b) == head;
    ValidIffHeadMeetsTail(a, b, suffix);
  }

  /**
   * Two different prefixes complete the same nine digits only if they are 10 and 99, and both do
   * exactly when the nine digits contribute a multiple of 89.
   */
  lemma AtMostTwoPrefixes(suffix: string, a: char, b: char, c: char, d: char)
    requires NineDigits(suffix) && IsDigit(a) && IsDigit(b) && IsDigit(c) && IsDigit(d)
    requires a != '0' && c != '0' && (a < c || (a == c && b < d))
    ensures IsValidAbnChecksum([a, b] + suffix) && IsValidAbnChecksum([c, d] + suffix)
       <==> [a, b] == "10" && [c, d] == "99" && Tail(suffix) % 89 == 0
  {
    ValidIffHeadMeetsTail(a, b, suffix);
    ValidIffHeadMeetsTail(c, d, suffix);
    assert 0 <= Head(a, b) < Head(c, d) <= 89;
    TwoHeads(Head(a, b), Head(c, d), Tail(suffix));
  }

  lemma TwoHeads(h: int, g: int, tail: int)
    requires 0 <= h < g <= 89
    ensures (h + tail) % 89 == 0 && (g + tail) % 89 == 0 <==> h == 0 && g == 89 && tail % 89 == 0
  {
  }
}
