/** What lib/libstring prints and parses as numbers: printint of string.c and strtol of conv.c, on values. */
module Numbers {
  import opened Common

  const SCRATCH: nat := 32   // the digit buffer of printint

  /** A digit as printint stores it in an unsigned char. */
  function DigitChar(d: nat): char {
    if d > 9 then ((97 + (d - 10)) % 256) as char else (48 + d) as char
  }

  function Quot(u: nat, base: nat): nat
    requires base >= 2
  {
    u / base
  }

  function Rem(u: nat, base: nat): nat
    requires base >= 2
  {
    u % base
  }

  lemma Positive(q: nat, base: nat)
    requires base >= 2 && q > 0
    ensures q * base >= 2 * q && q * base >= base
  {
    assert q * base - 2 * q == q * (base - 2);
    assert q * base - base == (q - 1) * base;
  }

  lemma Division(u: nat, base: nat)
    requires base >= 2
    ensures u == Quot(u, base) * base + Rem(u, base) && Rem(u, base) < base
    ensures u >= base ==> Quot(u, base) < u
    ensures u < base ==> Rem(u, base) == u
    ensures Quot(u, base) > 0 <==> u >= base
  {
    assert u == Quot(u, base) * base + Rem(u, base) && Rem(u, base) < base;
    hide Quot, Rem;
    var q := Quot(u, base);
    if q > 0 {
      Positive(q, base);
    } else {
      assert q * base == 0;
    }
  }

  /** The digits of `u`, most significant first; zero has one. */
  function Digits(u: nat, base: nat): (s: seq<char>)
    requires base >= 2
    ensures |s| > 0
    decreases u
  {
    if u < base then [DigitChar(u)]
    else
      Division(u, base);
      Digits(Quot(u, base), base) + [DigitChar(Rem(u, base))]
  }

  function Pow2(n: nat): (p: nat)
    ensures p > 0
  {
    if n == 0 then 1 else 2 * Pow2(n - 1)
  }

  lemma HalvesAtLeast(u: nat, base: nat, p: nat)
    requires base >= 2 && u < 2 * p
    ensures Quot(u, base) < p
  {
    Division(u, base);
    var q := Quot(u, base);
    hide Quot, Rem;
    assert q * base == q * 2 + q * (base - 2) && q * (base - 2) >= 0;
  }

  /** At most `n` digits for anything below 2 to the power `n`: printint's scratch buffer never overflows. */
  lemma {:induction false} DigitsFit(u: nat, base: nat, n: nat)
    requires base >= 2 && n > 0 && u < Pow2(n)
    ensures |Digits(u, base)| <= n
  {
    if u >= base {
      assert n > 1;
      Division(u, base);
      hide Quot, Rem;
      HalvesAtLeast(u, base, Pow2(n - 1));
      DigitsFit(Quot(u, base), base, n - 1);
    }
  }

  lemma ScratchSuffices(u: nat, base: nat)
    requires base >= 2 && u < WRAP
    ensures |Digits(u, base)| <= SCRATCH
  {
    assert Pow2(8) == 256 && Pow2(16) == 0x1_0000 by {
      assert Pow2(4) == 16;
      assert Pow2(12) == 4096;
    }
    assert Pow2(24) == 0x100_0000 by {
      assert Pow2(20) == 0x10_0000;
    }
    assert Pow2(28) == 0x1000_0000;
    assert Pow2(32) == 0x1_0000_0000;
    DigitsFit(u, base, 32);
  }

  // ------------------------------------------------------------------ strtol

  predicate IsSpace(c: char) { c == ' ' || c == '\n' || c == '\t' }

  /** A 32-bit long, with overflow taken to wrap. */
  function Long(x: int): int { (x + 0x8000_0000) % 0x1_0000_0000 - 0x8000_0000 }

  /** The characters up to the first space. */
  function Token(s: seq<char>): (t: seq<char>)
    ensures t <= s && forall i :: 0 <= i < |t| ==> !IsSpace(t[i])
    ensures |t| < |s| ==> IsSpace(s[|t|])
  {
    if s == [] || IsSpace(s[0]) then [] else [s[0]] + Token(s[1..])
  }

  /** How many characters `s` starts with that are spaces. */
  function Spaces(s: seq<char>): (k: nat)
    ensures k <= |s| && (k < |s| ==> !IsSpace(s[k])) && forall i :: 0 <= i < k ==> IsSpace(s[i])
  {
    if s != [] && IsSpace(s[0]) then 1 + Spaces(s[1..]) else 0
  }

  /** Every character counts as a digit, at its distance from '0'. */
  function Value(s: seq<char>, base: int): int {
    if s == [] then 0 else Value(s[..|s| - 1], base) * base + (s[|s| - 1] as int - 48)
  }

  function Strtol(s: seq<char>, base: int): int {
    var t := s[Spaces(s)..];
    if t != [] && t[0] == '-' then Long(-Value(Token(t[1..]), base))
    else if t != [] && t[0] == '+' then Long(Value(Token(t[1..]), base))
    else Long(Value(Token(t), base))
  }

  // ------------------------------------------------------------------ what strtol reads of what printint wrote

  /** The part of `u` that lies in digits above nine: the weights of those places. */
  function LetterWeight(u: nat, base: nat): nat
    requires base >= 2
    decreases u
  {
    Division(u, base);
    (if u >= base then LetterWeight(Quot(u, base), base) * base else 0) + if Rem(u, base) > 9 then 1 else 0
  }

  /** All digits are below ten. */
  predicate PlainDigits(u: nat, base: nat)
    requires base >= 2
    decreases u
  {
    Division(u, base);
    Rem(u, base) <= 9 && (u >= base ==> PlainDigits(Quot(u, base), base))
  }

  lemma DigitCharIs(d: nat)
    requires d < 36
    ensures DigitChar(d) as int - 48 == d + 39 * (if d > 9 then 1 else 0)
    ensures !IsSpace(DigitChar(d)) && DigitChar(d) != '-' && DigitChar(d) != '+'
  {
  }

  /** Each letter is read 39 too high. */
  lemma {:induction false} ValueOfDigits(u: nat, base: nat)
    requires 2 <= base <= 36
    ensures Value(Digits(u, base), base) == u + 39 * LetterWeight(u, base)
    decreases u
  {
    Division(u, base);
    DigitCharIs(Rem(u, base));
    hide Quot, Rem, DigitChar;
    var s, q, d := Digits(u, base), Quot(u, base), Rem(u, base);
    assert s[|s| - 1] == DigitChar(d);
    if u >= base {
      ValueOfDigits(q, base);
      assert s[..|s| - 1] == Digits(q, base);
      Spread(q, LetterWeight(q, base), base);
    } else {
      assert s[..0] == [] && Value([], base) == 0;
    }
  }

  lemma Spread(q: nat, l: nat, base: nat)
    ensures (q + 39 * l) * base == q * base + 39 * (l * base)
  {
  }

  lemma {:induction false} LetterWeightBound(u: nat, base: nat)
    requires base >= 2
    ensures 10 * LetterWeight(u, base) <= u
    ensures LetterWeight(u, base) == 0 <==> PlainDigits(u, base)
    decreases u
  {
    Division(u, base);
    hide Quot, Rem;
    if u >= base {
      LetterWeightBound(Quot(u, base), base);
      Scale(LetterWeight(Quot(u, base), base), Quot(u, base), base);
    }
  }

  lemma Scale(l: nat, q: nat, base: nat)
    requires 10 * l <= q && base >= 2
    ensures 10 * (l * base) <= q * base && (l * base == 0 <==> l == 0)
  {
    assert q * base - 10 * (l * base) == (q - 10 * l) * base;
  }

  lemma {:induction false} DigitsAreNoSpaces(u: nat, base: nat)
    requires 2 <= base <= 36
    ensures forall i :: 0 <= i < |Digits(u, base)| ==>
              !IsSpace(Digits(u, base)[i]) && Digits(u, base)[i] != '-' && Digits(u, base)[i] != '+'
    decreases u
  {
    Division(u, base);
    DigitCharIs(Rem(u, base));
    hide Quot, Rem, DigitChar, IsSpace;
    if u >= base {
      DigitsAreNoSpaces(Quot(u, base), base);
    }
  }

  lemma {:induction false} TokenOfWord(s: seq<char>)
    requires forall i :: 0 <= i < |s| ==> !IsSpace(s[i])
    ensures Token(s) == s
  {
  }

  /** strtol on one word. */
  lemma StrtolWord(s: seq<char>, base: int)
    requires s != [] && s[0] != '-' && s[0] != '+' && forall i :: 0 <= i < |s| ==> !IsSpace(s[i])
    ensures Strtol(s, base) == Long(Value(s, base))
  {
    assert Spaces(s) == 0;
    hide Value, Long, Token, Spaces, IsSpace;
    TokenOfWord(s);
    assert s[0..] == s;
  }

  /** And with a minus sign before it. */
  lemma StrtolMinus(s: seq<char>, base: int)
    requires forall i :: 0 <= i < |s| ==> !IsSpace(s[i])
    ensures Strtol(['-'] + s, base) == Long(-Value(s, base))
  {
    var t := ['-'] + s;
    assert t[0] == '-' && Spaces(t) == 0;
    hide Value, Long, Token, Spaces, IsSpace;
    TokenOfWord(s);
    assert t[0..] == t && t[1..] == s;
  }

  lemma StrtolOfDigits(u: nat, base: nat)
    requires 2 <= base <= 36
    ensures Strtol(Digits(u, base), base) == Long(u + 39 * LetterWeight(u, base))
    ensures Strtol(['-'] + Digits(u, base), base) == Long(-(u + 39 * LetterWeight(u, base)))
  {
    hide *;
    DigitsAreNoSpaces(u, base);
    ValueOfDigits(u, base);
    StrtolWord(Digits(u, base), base);
    StrtolMinus(Digits(u, base), base);
  }

  /** 39 is odd and the weights are small, so what letters add does not vanish by wrapping. */
  lemma LettersShow(u: nat, w: nat)
    requires 10 * w <= u < 0x8000_0000
    ensures Long(u + 39 * w) == u <==> w == 0
  {
  }

  /** strtol inverts printint below 2^31 exactly where no digit is above nine. */
  lemma StrtolInvertsPrintint(u: nat, base: nat)
    requires 2 <= base <= 36 && u < 0x8000_0000
    ensures Strtol(Digits(u, base), base) == u <==> PlainDigits(u, base)
  {
    hide *;
    StrtolOfDigits(u, base);
    LetterWeightBound(u, base);
    LettersShow(u, LetterWeight(u, base));
  }

  lemma {:induction false} SmallBasesArePlain(u: nat, base: nat)
    requires 2 <= base <= 10
    ensures PlainDigits(u, base)
    decreases u
  {
    Division(u, base);
    hide Quot, Rem;
    if u >= base {
      SmallBasesArePlain(Quot(u, base), base);
    }
  }

  /** So for bases up to ten it always does. */
  lemma RoundTrip(u: nat, base: nat)
    requires 2 <= base <= 10 && u < 0x8000_0000
    ensures Strtol(Digits(u, base), base) == u
  {
    SmallBasesArePlain(u, base);
    StrtolInvertsPrintint(u, base);
  }

  /** And for base sixteen it does not: ten comes back as forty-nine. */
  lemma HexIsNotRead()
    ensures Digits(10, 16) == ['a'] && Strtol(Digits(10, 16), 16) == 49
  {
    assert Quot(10, 16) == 0 && Rem(10, 16) == 10 && LetterWeight(10, 16) == 1;
    hide Strtol, Long, LetterWeight;
    StrtolOfDigits(10, 16);
    LongOfInt(49);
  }

  // ------------------------------------------------------------------ numerals

  /** What a digit is worth: '0' to '9', then 'a' to 'z'. Other characters are no digits. */
  function Worth(c: char): int {
    if '0' <= c <= '9' then c as int - '0' as int
    else if 'a' <= c <= 'z' then c as int - 'a' as int + 10
    else -1
  }

  /** The number a string of digits stands for. */
  function Reads(s: seq<char>, base: nat): int {
    if s == [] then 0 else Reads(s[..|s| - 1], base) * base + Worth(s[|s| - 1])
  }

  /** A numeral: digits below the base, at least one, and no zero in front of others. */
  predicate Numeral(s: seq<char>, base: nat) {
    && s != []
    && (forall i :: 0 <= i < |s| ==> 0 <= Worth(s[i]) < base)
    && (|s| > 1 ==> s[0] != '0')
  }

  lemma WorthOfDigit(d: nat)
    requires d < 36
    ensures Worth(DigitChar(d)) == d && (DigitChar(d) == '0' <==> d == 0)
  {
  }

  lemma DigitOfWorth(c: char)
    requires Worth(c) >= 0
    ensures Worth(c) < 36 && DigitChar(Worth(c)) == c
  {
  }

  lemma {:induction false} DigitsAreNumeral(u: nat, base: nat)
    requires 2 <= base <= 36
    ensures Numeral(Digits(u, base), base) && Reads(Digits(u, base), base) == u
    ensures u > 0 ==> Digits(u, base)[0] != '0'
    decreases u
  {
    Division(u, base);
    WorthOfDigit(Rem(u, base));
    hide Quot, Rem, DigitChar, Worth;
    var s := Digits(u, base);
    if u >= base {
      DigitsAreNumeral(Quot(u, base), base);
      assert s[..|s| - 1] == Digits(Quot(u, base), base);
    } else {
      assert s[..0] == [] && Reads([], base) == 0;
    }
  }

  /** A numeral is worth at least what its first digit makes it worth. */
  lemma {:induction false} ReadsPositive(s: seq<char>, base: nat)
    requires Numeral(s, base) && s[0] != '0'
    ensures Reads(s, base) > 0
  {
    var t := s[..|s| - 1];
    assert Worth(s[|s| - 1]) >= 0;
    if |s| > 1 {
      ReadsPositive(t, base);
      hide Worth;
      assert base >= 2;
      Positive(Reads(t, base), base);
    } else {
      assert t == [] && Reads(t, base) == 0;
      FirstIsPositive(s[0]);
    }
  }

  lemma FirstIsPositive(c: char)
    requires c != '0' && Worth(c) >= 0
    ensures Worth(c) > 0
  {
  }

  lemma QuotRem(q: nat, d: nat, base: nat)
    requires base >= 2 && d < base
    ensures Quot(q * base + d, base) == q && Rem(q * base + d, base) == d
  {
    var u := q * base + d;
    Division(u, base);
    hide Quot, Rem;
    SameQuotient(q, d, Quot(u, base), Rem(u, base), base);
  }

  lemma SameQuotient(q: nat, d: nat, p: nat, e: nat, base: nat)
    requires base >= 2 && d < base && e < base && q * base + d == p * base + e
    ensures q == p && d == e
  {
    if q > p {
      Farther(q, p, base);
    } else if p > q {
      Farther(p, q, base);
    }
  }

  lemma Farther(q: nat, p: nat, base: nat)
    requires base >= 2 && q > p
    ensures q * base >= p * base + base
  {
    Positive(q - p, base);
    assert (q - p) * base == q * base - p * base;
  }

  lemma {:induction false} NumeralIsDigits(s: seq<char>, base: nat)
    requires 2 <= base <= 36 && Numeral(s, base)
    ensures Reads(s, base) >= 0 && Digits(Reads(s, base), base) == s
  {
    var t, c := s[..|s| - 1], s[|s| - 1];
    DigitOfWorth(c);
    assert 0 <= Worth(c) < base;
    if |s| > 1 {
      assert t[0] == s[0];
      NumeralIsDigits(t, base);
      ReadsPositive(t, base);
      hide Worth, DigitChar, Quot, Rem;
      QuotRem(Reads(t, base), Worth(c), base);
      Positive(Reads(t, base), base);
      assert s == t + [c];
    } else {
      assert t == [] && Reads(t, base) == 0;
    }
  }

  /** What printint writes is the numeral of the number, and there is only one. */
  lemma DigitsIff(s: seq<char>, u: nat, base: nat)
    requires 2 <= base <= 36
    ensures s == Digits(u, base) <==> Numeral(s, base) && Reads(s, base) == u
  {
    hide *;
    DigitsAreNumeral(u, base);
    if Numeral(s, base) {
      NumeralIsDigits(s, base);
    }
  }

  /** strtol on any string: spaces, perhaps a sign, characters up to the next space, and whatever follows. */
  lemma StrtolReads(spaces: seq<char>, sign: seq<char>, word: seq<char>, rest: seq<char>, base: int)
    requires forall i :: 0 <= i < |spaces| ==> spaces[i] in {' ', '\n', '\t'}
    requires forall i :: 0 <= i < |word| ==> word[i] !in {' ', '\n', '\t'}
    requires rest == [] || rest[0] in {' ', '\n', '\t'}
    requires sign in {[], ['+'], ['-']} && (sign == [] ==> word != [] && word[0] !in {'+', '-'})
    ensures Strtol(spaces + sign + word + rest, base) ==
            Long(if sign == ['-'] then -Value(word, base) else Value(word, base))
  {
    hide Value, Long, Token, Spaces, Strtol;
    var t := sign + word + rest;
    SignedTail(sign, word, rest);
    SpacesThen(spaces, t);
    TokenThen(word, rest);
    assert spaces + sign + word + rest == spaces + t;
    StrtolTail(spaces, t, base);
  }

  lemma SignedTail(sign: seq<char>, word: seq<char>, rest: seq<char>)
    requires forall i :: 0 <= i < |word| ==> !IsSpace(word[i])
    requires sign in {[], ['+'], ['-']} && (sign == [] ==> word != [])
    ensures var t := sign + word + rest;
            && t != [] && !IsSpace(t[0])
            && if sign == [] then t == word + rest && t[0] == word[0]
               else t[0] == sign[0] && t[1..] == word + rest
  {
  }

  lemma StrtolTail(spaces: seq<char>, t: seq<char>, base: int)
    requires t != [] && Spaces(spaces + t) == |spaces|
    ensures Strtol(spaces + t, base) == if t[0] == '-' then Long(-Value(Token(t[1..]), base))
                                        else Long(Value(Token(if t[0] == '+' then t[1..] else t), base))
  {
    hide Value, Long, Token, Spaces, IsSpace;
    assert (spaces + t)[|spaces|..] == t;
  }

  lemma {:induction false} SpacesThen(spaces: seq<char>, t: seq<char>)
    requires forall i :: 0 <= i < |spaces| ==> IsSpace(spaces[i])
    requires t != [] && !IsSpace(t[0])
    ensures Spaces(spaces + t) == |spaces|
  {
    if spaces == [] {
      assert spaces + t == t;
    } else {
      assert (spaces + t)[1..] == spaces[1..] + t;
      SpacesThen(spaces[1..], t);
    }
  }

  lemma {:induction false} TokenThen(word: seq<char>, rest: seq<char>)
    requires forall i :: 0 <= i < |word| ==> !IsSpace(word[i])
    requires rest != [] ==> IsSpace(rest[0])
    ensures Token(word + rest) == word
  {
    if word == [] {
      assert word + rest == rest;
    } else {
      assert (word + rest)[1..] == word[1..] + rest;
      TokenThen(word[1..], rest);
    }
  }

  /** The number a word of decimal digits stands for is what strtol makes of it. */
  lemma {:induction false} ValueOfPlain(s: seq<char>, base: nat)
    requires forall i :: 0 <= i < |s| ==> '0' <= s[i] <= '9'
    ensures Value(s, base) == Reads(s, base)
  {
    if s != [] {
      ValueOfPlain(s[..|s| - 1], base);
    }
  }

  /** What the %i arm prints. */
  function SignedDigits(i: int): seq<char> {
    if i < 0 then ['-'] + Digits(-i, 10) else Digits(i, 10)
  }

  lemma LongOfInt(i: int)
    requires -0x8000_0000 <= i < 0x8000_0000
    ensures Long(i) == i
  {
  }

  /** strtol reads back every int that %i printed. */
  lemma SignedRoundTrip(i: int)
    requires -0x8000_0000 <= i < 0x8000_0000
    ensures Strtol(SignedDigits(i), 10) == i
  {
    hide Strtol, Long, Digits, LetterWeight, PlainDigits;
    var u := if i < 0 then -i else i;
    StrtolOfDigits(u, 10);
    SmallBasesArePlain(u, 10);
    LetterWeightBound(u, 10);
    LongOfInt(i);
  }
}
