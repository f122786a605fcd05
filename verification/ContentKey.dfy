/**
  The content key of an inline element (`design/Q-Agent app design/support.js`, `contentKey`): the length of
  its markup and a 32-bit hash of it, in JavaScript's number arithmetic.
 */
module ContentKey {
  type CodeUnit = c: int | 0 <= c < 0x1_0000

  const MODULUS := 0x1_0000_0000
  const HALF := 0x8000_0000
  /** Integers up to this magnitude are exact as JavaScript numbers. */
  const MAX_SAFE := 0x1F_FFFF_FFFF_FFFF

  predicate IsInt32(x: int) {
    -HALF <= x < HALF
  }

  /** ECMA-262 2020, section 7.1.6. */
  function ToInt32(x: int): (r: int)
    ensures IsInt32(r) && r % MODULUS == x % MODULUS
  {
    var u := x % MODULUS;
    if u >= HALF then u - MODULUS else u
  }

  /** `x << 5` on a 32-bit value. */
  function ShiftLeft5(x: int): (r: int)
    requires IsInt32(x)
    ensures IsInt32(r) && r % MODULUS == 32 * x % MODULUS
  {
    ToInt32(x % MODULUS * 32)
  }

  /** The hash as a number in base 33, started at 5381, without any wrap-around. */
  function Polynomial(s: seq<CodeUnit>): nat {
    if s == [] then 5381 else 33 * Polynomial(s[..|s| - 1]) + s[|s| - 1]
  }

  function Power(b: nat, n: nat): nat {
    if n == 0 then 1 else b * Power(b, n - 1)
  }

  /** The digits of `s` weighted by their place. */
  function Weighted(s: seq<CodeUnit>): nat {
    if s == [] then 0 else s[0] * Power(33, |s| - 1) + Weighted(s[1..])
  }

  /** The sum in the loop is exact, and wrapping it keeps the residue. */
  lemma StepExact(h: int, c: CodeUnit)
    requires IsInt32(h)
    ensures -MAX_SAFE <= ShiftLeft5(h) + h + c <= MAX_SAFE
    ensures ToInt32(ShiftLeft5(h) + h + c) % MODULUS == (33 * h + c) % MODULUS
  {
    hide ShiftLeft5, ToInt32;
    var shifted := ShiftLeft5(h);
    var k := shifted / MODULUS - 32 * h / MODULUS;
    assert shifted == 32 * h + k * MODULUS;
    ResidueShift(33 * h + c, k);
    assert shifted + h + c == 33 * h + c + k * MODULUS;
  }

  lemma ResidueStep(h: int, p: nat, c: CodeUnit)
    requires h % MODULUS == p % MODULUS
    ensures (33 * h + c) % MODULUS == (33 * p + c) % MODULUS
  {
    var k := h / MODULUS - p / MODULUS;
    assert h == p + k * MODULUS;
    ResidueShift(33 * p + c, 33 * k);
    assert 33 * h + c == 33 * p + c + 33 * k * MODULUS;
  }

  lemma ResidueShift(x: int, k: int)
    ensures (x + k * MODULUS) % MODULUS == x % MODULUS
  {
  }

  /** The loop of the source, on the signed value it keeps. */
  method Hash(s: seq<CodeUnit>) returns (h: int)
    ensures IsInt32(h) && h % MODULUS == Polynomial(s) % MODULUS
  {
    h := 5381;
    var i := 0;
    while i < |s|
      invariant 0 <= i <= |s|
      invariant IsInt32(h) && h % MODULUS == Polynomial(s[..i]) % MODULUS
    {
      StepExact(h, s[i]);
      ResidueStep(h, Polynomial(s[..i]), s[i]);
      assert s[..i + 1][..i] == s[..i];
      var sum := ShiftLeft5(h) + h + s[i];
      assert -MAX_SAFE <= sum <= MAX_SAFE;
      h := ToInt32(sum);
      i := i + 1;
    }
    assert s[..i] == s;
  }

  /** In closed form: 5381 and the code units, each at its power of 33. */
  lemma {:induction false} PolynomialClosedForm(s: seq<CodeUnit>)
    ensures Polynomial(s) == 5381 * Power(33, |s|) + Weighted(s)
  {
    if s != [] {
      var init, last := s[..|s| - 1], s[|s| - 1];
      PolynomialClosedForm(init);
      WeightedSnoc(init, last);
      assert s == init + [last];
    }
  }

  lemma {:induction false} WeightedSnoc(s: seq<CodeUnit>, c: CodeUnit)
    ensures Weighted(s + [c]) == 33 * Weighted(s) + c
  {
    if s == [] {
      assert s + [c] == [c];
      assert [c][1..] == [];
      assert Weighted([c]) == c * Power(33, 0) + Weighted([]);
    } else {
      WeightedSnoc(s[1..], c);
      assert (s + [c])[1..] == s[1..] + [c];
      assert Power(33, |s|) == 33 * Power(33, |s| - 1);
      assert s[0] * (33 * Power(33, |s| - 1)) == 33 * (s[0] * Power(33, |s| - 1));
    }
  }

  // ---------------------------------------------------------------------------
  // The key
  // ---------------------------------------------------------------------------

  const DIGITS := "0123456789abcdefghijklmnopqrstuvwxyz"

  function Quotient(n: nat, base: nat): nat
    requires 2 <= base
  {
    n / base
  }

  function LastDigit(n: nat, base: nat): nat
    requires 2 <= base
  {
    n % base
  }

  /** `n.toString(base)`. */
  function ToText(n: nat, base: nat): string
    requires 2 <= base <= 36
    decreases n
  {
    if n < base then [DIGITS[n]] else ToText(Quotient(n, base), base) + [DIGITS[LastDigit(n, base)]]
  }

  /** The unsigned hash. */
  function Residue(s: seq<CodeUnit>): nat {
    Polynomial(s) % MODULUS
  }

  function Key(s: seq<CodeUnit>): string {
    ToText(|s|, 10) + "." + ToText(Residue(s), 36)
  }

  method ContentKey(s: seq<CodeUnit>) returns (key: string)
    ensures key == Key(s)
  {
    var h := Hash(s);
    key := ToText(|s|, 10) + "." + ToText(h % MODULUS, 36);
  }

  lemma DigitsDiffer(a: nat, b: nat)
    requires a < 36 && b < 36 && DIGITS[a] == DIGITS[b]
    ensures a == b && DIGITS[a] != '.'
  {
    DigitCode(a);
    DigitCode(b);
  }

  lemma DigitCode(a: nat)
    requires a < 36
    ensures DIGITS[a] as int == if a < 10 then '0' as int + a else 'a' as int + a - 10
  {
  }

  lemma {:induction false} TextNoDot(n: nat, base: nat)
    requires 2 <= base <= 36
    ensures ToText(n, base) != "" && '.' !in ToText(n, base)
    decreases n
  {
    if n < base {
      DigitsDiffer(n, n);
    } else {
      TextNoDot(Quotient(n, base), base);
      DigitsDiffer(LastDigit(n, base), LastDigit(n, base));
    }
  }

  /** Numbers read back from their text. */
  lemma {:induction false} TextInjective(m: nat, n: nat, base: nat)
    requires 2 <= base <= 36 && ToText(m, base) == ToText(n, base)
    ensures m == n
    decreases m
  {
    hide ToText, DIGITS, Quotient, LastDigit;
    TextParts(m, base);
    TextParts(n, base);
    DigitsDiffer(LastDigit(m, base), LastDigit(n, base));
    if m >= base {
      TextInjective(Quotient(m, base), Quotient(n, base), base);
    }
    SameNumber(m, n, base);
  }

  function DigitValue(c: char): int {
    if c <= '9' then c as int - '0' as int else c as int - 'a' as int + 10
  }

  /** The number that a text of digits stands for, the first digit counting most. */
  function Read(t: string, base: nat): int {
    if t == "" then 0 else base * Read(t[..|t| - 1], base) + DigitValue(t[|t| - 1])
  }

  /** The text of a number reads as that number. */
  lemma {:induction false} TextReads(n: nat, base: nat)
    requires 2 <= base <= 36
    ensures Read(ToText(n, base), base) == n
    decreases n
  {
    hide ToText, DIGITS, Quotient, LastDigit;
    TextParts(n, base);
    DigitCode(LastDigit(n, base));
    DigitsOf(n, base);
    if n >= base {
      TextReads(Quotient(n, base), base);
    } else {
      assert ToText(n, base)[..0] == "";
    }
  }

  lemma DigitsOf(n: nat, base: nat)
    requires 2 <= base
    ensures n == base * Quotient(n, base) + LastDigit(n, base)
  {
    Division(n, base);
  }

  lemma SameNumber(m: nat, n: nat, base: nat)
    requires 2 <= base
    requires Quotient(m, base) == Quotient(n, base) && LastDigit(m, base) == LastDigit(n, base)
    ensures m == n
  {
    Division(m, base);
    Division(n, base);
  }

  lemma TextParts(n: nat, base: nat)
    requires 2 <= base <= 36
    ensures var t := ToText(n, base);
            && t != "" && LastDigit(n, base) < 36 && t[|t| - 1] == DIGITS[LastDigit(n, base)]
            && (n < base ==> Quotient(n, base) == 0 && |t| == 1)
            && (n >= base ==> |t| > 1 && t[..|t| - 1] == ToText(Quotient(n, base), base) && Quotient(n, base) < n)
  {
    Division(n, base);
    if n >= base {
      TextNoDot(Quotient(n, base), base);
      assert ToText(n, base) == ToText(Quotient(n, base), base) + [DIGITS[LastDigit(n, base)]];
    } else {
      assert ToText(n, base) == [DIGITS[n]];
    }
  }

  lemma Division(n: nat, base: nat)
    requires 2 <= base
    ensures n == base * (n / base) + n % base && n % base < base
    ensures n < base ==> n / base == 0 && n % base == n
    ensures n >= base ==> n / base < n
  {
    if n < base {
      SmallRemainder(n, base);
    }
  }

  lemma SmallRemainder(n: nat, base: nat)
    requires n < base
    ensures n % base == n && n / base == 0
  {
  }

  /** Text before the first dot. */
  lemma {:induction false} DotSplits(a: string, b: string, c: string, d: string)
    requires '.' !in a && '.' !in c && a + "." + b == c + "." + d
    ensures a == c && b == d
  {
    var s, t := a + "." + b, c + "." + d;
    FirstDot(a, b);
    FirstDot(c, d);
    assert |a| == |c|;
    assert s[..|a|] == a && t[..|c|] == c;
    assert s[|a| + 1..] == b && t[|c| + 1..] == d;
  }

  lemma FirstDot(a: string, b: string)
    requires '.' !in a
    ensures (a + "." + b)[|a|] == '.' && forall i :: 0 <= i < |a| ==> (a + "." + b)[i] != '.'
  {
    assert forall i :: 0 <= i < |a| ==> (a + "." + b)[i] == a[i];
  }

  /** Two keys agree exactly when the lengths and the residues of the polynomials do. */
  lemma KeysEqualExactly(s: seq<CodeUnit>, t: seq<CodeUnit>)
    ensures Key(s) == Key(t) <==> |s| == |t| && Residue(s) == Residue(t)
  {
    if Key(s) == Key(t) {
      TextNoDot(|s|, 10);
      TextNoDot(|t|, 10);
      DotSplits(ToText(|s|, 10), ToText(Residue(s), 36), ToText(|t|, 10), ToText(Residue(t), 36));
      TextInjective(|s|, |t|, 10);
      TextInjective(Residue(s), Residue(t), 36);
    }
  }
}
