/**
 * Letters and the two arithmetic helpers of unigma.c: `mod_positive`
 * (reduction modulo 26 built from C's truncating `%`) and `idx` (linear
 * search for a character in a string).
 */
module Letters {
  import opened Layout

  /**
   * The reference alphabet `ALPHABET`; a letter's index is its distance from
   * 'A'. AlphabetSpelledOut shows it is the literal "ABCDEFGHIJKLMNOPQRSTUVWXYZ".
   */
  function Alphabet(): (a: string)
    ensures |a| == ALPHABET_SIZE
  {
    seq(ALPHABET_SIZE, k requires 0 <= k < ALPHABET_SIZE => Chr(k))
  }

  predicate IsUpper(c: char) { 'A' <= c <= 'Z' }

  predicate IsLower(c: char) { 'a' <= c <= 'z' }

  /** The `c -= 32` conversion applied to lowercase ASCII letters. */
  function ToUpper(c: char): (u: char)
    ensures IsLower(c) ==> IsUpper(u) && u as int == c as int - 32
    ensures !IsLower(c) ==> u == c
  {
    if IsLower(c) then (c as int - 32) as char else c
  }

  /** Uppercases every lowercase letter of a string and leaves the rest alone. */
  function UpperString(s: string): (u: string)
    ensures |u| == |s|
    ensures forall i | 0 <= i < |s| :: u[i] == ToUpper(s[i])
  {
    if s == [] then [] else [ToUpper(s[0])] + UpperString(s[1..])
  }

  /** Letter index of an uppercase letter. */
  function Ord(c: char): int { c as int - 'A' as int }

  /** The letter with index k. */
  function Chr(k: int): char
    requires 0 <= k < ALPHABET_SIZE
  {
    ('A' as int + k) as char
  }

  /** A letter index is one of 0 .. 25, spelled out for a case split. */
  lemma LetterIndexCases(k: int)
    requires 0 <= k < ALPHABET_SIZE
    ensures k == 0 || k == 1 || k == 2 || k == 3 || k == 4 || k == 5 || k == 6 || k == 7
         || k == 8 || k == 9 || k == 10 || k == 11 || k == 12 || k == 13 || k == 14 || k == 15
         || k == 16 || k == 17 || k == 18 || k == 19 || k == 20 || k == 21 || k == 22 || k == 23
         || k == 24 || k == 25
  {
  }

  /** Chr and Ord are inverse on letter indices. */
  lemma ChrOrd(k: int)
    requires 0 <= k < ALPHABET_SIZE
    ensures IsUpper(Chr(k)) && Ord(Chr(k)) == k
  {
  }

  lemma OrdChr(c: char)
    requires IsUpper(c)
    ensures 0 <= Ord(c) < ALPHABET_SIZE && Chr(Ord(c)) == c
  {
  }

  /** C's `a % 26`: the remainder of division truncated toward zero. */
  function CRem(a: int): (r: int)
    ensures -ALPHABET_SIZE < r < ALPHABET_SIZE && (a - r) % ALPHABET_SIZE == 0
    ensures a >= 0 ==> r >= 0
    ensures a < 0 ==> r <= 0
  {
    if a >= 0 then a % ALPHABET_SIZE else -((-a) % ALPHABET_SIZE)
  }

  /**
   * `mod_positive`: the representative of a modulo 26 in 0..25. Dafny's `%`
   * is Euclidean, so this is `a % 26`; ModPositiveMatchesSource shows it is
   * the value of the C expression `(a % 26 + 26) % 26`.
   */
  function ModPositive(a: int): (r: int)
    ensures 0 <= r < ALPHABET_SIZE
  {
    a % ALPHABET_SIZE
  }

  /** The C expression, built from truncating remainders, agrees with ModPositive and is congruent to a. */
  lemma ModPositiveMatchesSource(a: int)
    ensures CRem(CRem(a) + ALPHABET_SIZE) == ModPositive(a)
    ensures (a - ModPositive(a)) % ALPHABET_SIZE == 0
  {
    var t := CRem(a) + ALPHABET_SIZE;
    assert 0 < t < 2 * ALPHABET_SIZE;
    assert (a - t) % ALPHABET_SIZE == 0;
  }

  /** A letter index is its own representative. */
  lemma ModPositiveOfIndex(a: int)
    requires 0 <= a < ALPHABET_SIZE
    ensures ModPositive(a) == a
  {
  }

  /** Values that differ by whole turns of 26 have the same residue. */
  lemma ModPositiveShift(a: int, b: int, n: int)
    requires a == b + ALPHABET_SIZE * n
    ensures ModPositive(a) == ModPositive(b)
  {
  }

  /** `idx` scanning from position i. */
  function IdxFrom(s: string, c: char, i: nat): (r: int)
    requires i <= |s|
    ensures r == -1 <==> forall j | i <= j < |s| :: s[j] != c
    ensures r != -1 ==> i <= r < |s| && s[r] == c && forall j | i <= j < r :: s[j] != c
    decreases |s| - i
  {
    if i == |s| then -1
    else if s[i] == c then i
    else IdxFrom(s, c, i + 1)
  }

  /** `idx`: the first index of c in s, or -1 when c does not occur. */
  function Idx(s: string, c: char): (r: int)
    ensures r == -1 <==> forall j | 0 <= j < |s| :: s[j] != c
    ensures r != -1 ==> 0 <= r < |s| && s[r] == c && forall j | 0 <= j < r :: s[j] != c
  {
    IdxFrom(s, c, 0)
  }

  /** The alphabet is the 26 capital letters in order. */
  lemma AlphabetSpelledOut()
    ensures Alphabet() == "ABCDEFGHIJKLMNOPQRSTUVWXYZ"
  {
    var spelled := "ABCDEFGHIJKLMNOPQRSTUVWXYZ";
    forall k | 0 <= k < ALPHABET_SIZE ensures Alphabet()[k] == spelled[k] {
      LetterIndexCases(k);
    }
  }

  /** Looking a letter up in the alphabet gives its letter index; anything else is absent. */
  lemma {:induction false} IdxAlphabet(c: char)
    ensures IsUpper(c) ==> Idx(Alphabet(), c) == Ord(c)
    ensures !IsUpper(c) ==> Idx(Alphabet(), c) == -1
  {
    if IsUpper(c) {
      ChrOrd(Ord(c));
      assert Alphabet()[Ord(c)] == c;
      var r := Idx(Alphabet(), c);
      ChrOrd(r);
    } else {
      forall k | 0 <= k < |Alphabet()| ensures Alphabet()[k] != c {
        ChrOrd(k);
      }
    }
  }
}
