/**
 * Rotor and reflector wiring (rotors I, II, III and reflector B), the
 * notch table, and the substitution of one letter index through one rotor
 * (`encode_through_rotor`) or through the reflector.
 */
module Rotors {
  import opened Layout
  import opened Letters

  /** Entry i maps input letter i to the letter at position i: rotors I, II, III, reflector B. */
  const ROTOR_WIRINGS: seq<string> := [
    "EKMFLGDQVZNTOWYHXUSPAIBRCJ",
    "AJDKSIRUXBLHWTMCQGZNPYFVOE",
    "BDFHJLCPRTXVZNYEIWGAKMUSQO",
    "YRUHQSLDPXNGOKMIEBFZCWVJAT"
  ]

  /** The reflector is the last entry of the wiring table. */
  const REFLECTOR := 3

  /** Notches Q, E, V of rotors I, II, III as letter indices. */
  const NOTCH_POSITIONS_INIT: seq<int> := [16, 4, 21]

  /**
   * For each wiring, the position at which each letter A..Z occurs. Used only
   * to prove that the tables above are permutations.
   */
  ghost const INVERSE_WIRINGS: seq<seq<int>> := [
    [20, 22, 24, 6, 0, 3, 5, 15, 21, 25, 1, 4, 2, 10, 12, 19, 7, 23, 18, 11, 17, 8, 13, 16, 14, 9],
    [0, 9, 15, 2, 25, 22, 17, 11, 5, 1, 3, 10, 14, 19, 24, 20, 16, 6, 4, 13, 7, 23, 12, 8, 21, 18],
    [19, 0, 6, 1, 15, 2, 18, 3, 16, 4, 20, 5, 21, 13, 25, 7, 24, 8, 23, 9, 22, 11, 17, 10, 14, 12],
    [24, 17, 20, 7, 16, 18, 11, 3, 15, 23, 13, 6, 14, 10, 12, 8, 4, 1, 5, 25, 2, 22, 21, 9, 0, 19]
  ]

  /** The direction in which the signal crosses a rotor. */
  datatype Direction = Forward | Reverse

  /** w lists every letter A..Z exactly once. */
  ghost predicate IsPermutation(w: string)
  {
    && |w| == ALPHABET_SIZE
    && (forall i | 0 <= i < |w| :: IsUpper(w[i]))
    && (forall i, j | 0 <= i < j < |w| :: w[i] != w[j])
    && (forall c | IsUpper(c) :: c in w)
  }

  /** Every position of w holds a letter, and inv sends that letter back to the position. */
  ghost predicate InverseOnPositions(w: string, inv: seq<int>)
  {
    && |w| == ALPHABET_SIZE && |inv| == ALPHABET_SIZE
    && forall i | 0 <= i < ALPHABET_SIZE :: IsUpper(w[i]) && inv[Ord(w[i])] == i
  }

  /** inv[j] is a position of w holding letter j. */
  ghost predicate InverseOnLetters(w: string, inv: seq<int>)
  {
    && |w| == ALPHABET_SIZE && |inv| == ALPHABET_SIZE
    && forall j | 0 <= j < ALPHABET_SIZE :: 0 <= inv[j] < ALPHABET_SIZE && w[inv[j]] == Chr(j)
  }

  lemma InverseTableGivesPermutation(w: string, inv: seq<int>)
    requires InverseOnPositions(w, inv) && InverseOnLetters(w, inv)
    ensures IsPermutation(w)
  {
    forall i, j | 0 <= i < j < |w| ensures w[i] != w[j] {
      assert inv[Ord(w[i])] == i && inv[Ord(w[j])] == j;
    }
    forall c | IsUpper(c) ensures c in w {
      var j := Ord(c);
      assert w[inv[j]] == Chr(j) == c;
    }
  }

  // The inverse tables are correct, checked entry by entry, one wiring and one direction per lemma.

  lemma RotorIOnPositions()
    ensures InverseOnPositions(ROTOR_WIRINGS[0], INVERSE_WIRINGS[0])
  {
    var w, inv := ROTOR_WIRINGS[0], INVERSE_WIRINGS[0];
    forall i | 0 <= i < ALPHABET_SIZE ensures IsUpper(w[i]) && inv[Ord(w[i])] == i {
      LetterIndexCases(i);
    }
  }

  lemma RotorIOnLetters()
    ensures InverseOnLetters(ROTOR_WIRINGS[0], INVERSE_WIRINGS[0])
  {
    var w, inv := ROTOR_WIRINGS[0], INVERSE_WIRINGS[0];
    forall j | 0 <= j < ALPHABET_SIZE ensures 0 <= inv[j] < ALPHABET_SIZE && w[inv[j]] == Chr(j) {
      LetterIndexCases(j);
    }
  }

  lemma RotorIIOnPositions()
    ensures InverseOnPositions(ROTOR_WIRINGS[1], INVERSE_WIRINGS[1])
  {
    var w, inv := ROTOR_WIRINGS[1], INVERSE_WIRINGS[1];
    forall i | 0 <= i < ALPHABET_SIZE ensures IsUpper(w[i]) && inv[Ord(w[i])] == i {
      LetterIndexCases(i);
    }
  }

  lemma RotorIIOnLetters()
    ensures InverseOnLetters(ROTOR_WIRINGS[1], INVERSE_WIRINGS[1])
  {
    var w, inv := ROTOR_WIRINGS[1], INVERSE_WIRINGS[1];
    forall j | 0 <= j < ALPHABET_SIZE ensures 0 <= inv[j] < ALPHABET_SIZE && w[inv[j]] == Chr(j) {
      LetterIndexCases(j);
    }
  }

  lemma RotorIIIOnPositions()
    ensures InverseOnPositions(ROTOR_WIRINGS[2], INVERSE_WIRINGS[2])
  {
    var w, inv := ROTOR_WIRINGS[2], INVERSE_WIRINGS[2];
    forall i | 0 <= i < ALPHABET_SIZE ensures IsUpper(w[i]) && inv[Ord(w[i])] == i {
      LetterIndexCases(i);
    }
  }

  lemma RotorIIIOnLetters()
    ensures InverseOnLetters(ROTOR_WIRINGS[2], INVERSE_WIRINGS[2])
  {
    var w, inv := ROTOR_WIRINGS[2], INVERSE_WIRINGS[2];
    forall j | 0 <= j < ALPHABET_SIZE ensures 0 <= inv[j] < ALPHABET_SIZE && w[inv[j]] == Chr(j) {
      LetterIndexCases(j);
    }
  }

  lemma ReflectorBOnPositions()
    ensures InverseOnPositions(ROTOR_WIRINGS[3], INVERSE_WIRINGS[3])
  {
    var w, inv := ROTOR_WIRINGS[3], INVERSE_WIRINGS[3];
    forall i | 0 <= i < ALPHABET_SIZE ensures IsUpper(w[i]) && inv[Ord(w[i])] == i {
      LetterIndexCases(i);
    }
  }

  lemma ReflectorBOnLetters()
    ensures InverseOnLetters(ROTOR_WIRINGS[3], INVERSE_WIRINGS[3])
  {
    var w, inv := ROTOR_WIRINGS[3], INVERSE_WIRINGS[3];
    forall j | 0 <= j < ALPHABET_SIZE ensures 0 <= inv[j] < ALPHABET_SIZE && w[inv[j]] == Chr(j) {
      LetterIndexCases(j);
    }
  }

  lemma WiringsArePermutations()
    ensures |ROTOR_WIRINGS| == NUM_ROTOR_WIRINGS
    ensures forall k | 0 <= k < NUM_ROTOR_WIRINGS :: IsPermutation(ROTOR_WIRINGS[k])
  {
    RotorIOnPositions();
    RotorIOnLetters();
    RotorIIOnPositions();
    RotorIIOnLetters();
    RotorIIIOnPositions();
    RotorIIIOnLetters();
    ReflectorBOnPositions();
    ReflectorBOnLetters();
    forall k | 0 <= k < NUM_ROTOR_WIRINGS ensures IsPermutation(ROTOR_WIRINGS[k]) {
      InverseTableGivesPermutation(ROTOR_WIRINGS[k], INVERSE_WIRINGS[k]);
    }
  }

  /** The reflector lookup of the signal path: `idx(ALPHABET, wiring[k])`. */
  function Reflect(w: string, k: int): (r: int)
    requires |w| == ALPHABET_SIZE && 0 <= k < ALPHABET_SIZE
    ensures IsUpper(w[k]) ==> r == Ord(w[k])
    ensures !IsUpper(w[k]) ==> r == -1
  {
    IdxAlphabet(w[k]);
    Idx(Alphabet(), w[k])
  }

  /** A reflector: a permutation whose lookup is an involution without fixed point. */
  ghost predicate IsReflector(w: string)
  {
    && IsPermutation(w)
    && forall k | 0 <= k < ALPHABET_SIZE ::
         0 <= Reflect(w, k) < ALPHABET_SIZE && Reflect(w, k) != k && Reflect(w, Reflect(w, k)) == k
  }

  /** Entry k of reflector B is a letter other than letter k, and the entry at that letter is letter k. */
  lemma ReflectorBEntry(k: int)
    requires 0 <= k < ALPHABET_SIZE
    ensures var w := ROTOR_WIRINGS[REFLECTOR];
      IsUpper(w[k]) && w[k] != Chr(k) && w[Ord(w[k])] == Chr(k)
  {
    LetterIndexCases(k);
  }

  /** Reflector B pairs the 26 letters into 13 swaps: an involution with no fixed point. */
  lemma ReflectorBIsReflector()
    ensures IsReflector(ROTOR_WIRINGS[REFLECTOR])
  {
    WiringsArePermutations();
    var w := ROTOR_WIRINGS[REFLECTOR];
    forall k | 0 <= k < ALPHABET_SIZE
      ensures 0 <= Reflect(w, k) < ALPHABET_SIZE && Reflect(w, k) != k && Reflect(w, Reflect(w, k)) == k
    {
      ReflectorBEntry(k);
      var j := Ord(w[k]);
      assert Reflect(w, k) == j;
      assert j != k;
      assert Reflect(w, j) == k;
    }
  }

  /** The three rotors are permutations and the last entry is a reflector. */
  ghost predicate ValidWirings(rotors: seq<string>)
  {
    && |rotors| == NUM_ROTOR_WIRINGS
    && (forall k | 0 <= k < NUM_ROTORS :: IsPermutation(rotors[k]))
    && IsReflector(rotors[REFLECTOR])
  }

  lemma StandardWiringsValid()
    ensures ValidWirings(ROTOR_WIRINGS)
  {
    WiringsArePermutations();
    ReflectorBIsReflector();
  }

  /** `encode_through_rotor`: letter index k through wiring w turned to the given position. */
  function EncodeThroughRotor(k: int, w: string, position: int, direction: Direction): (r: int)
    requires |w| == ALPHABET_SIZE
    ensures 0 <= r < ALPHABET_SIZE
  {
    var i := ModPositive(k + position);
    match direction
    case Forward => ModPositive(Idx(Alphabet(), w[i]) - position)
    case Reverse => ModPositive(Idx(w, Alphabet()[i]) - position)
  }

  /** The forward lookup lands on the index of the letter wired at the entry contact. */
  lemma ForwardValue(k: int, w: string, position: int)
    requires |w| == ALPHABET_SIZE && IsUpper(w[ModPositive(k + position)])
    ensures EncodeThroughRotor(k, w, position, Forward)
         == ModPositive(Ord(w[ModPositive(k + position)]) - position)
  {
    IdxAlphabet(w[ModPositive(k + position)]);
  }

  /** In a permutation the reverse lookup lands on the contact wired to the entry letter. */
  lemma ReverseValue(k: int, w: string, position: int) returns (j: int)
    requires IsPermutation(w)
    ensures 0 <= j < ALPHABET_SIZE && w[j] == Chr(ModPositive(k + position))
    ensures EncodeThroughRotor(k, w, position, Reverse) == ModPositive(j - position)
  {
    var i := ModPositive(k + position);
    ChrOrd(i);
    j := Idx(w, Alphabet()[i]);
  }

  /** Entering a rotor backwards undoes entering it forwards at the same position. */
  lemma ReverseUndoesForward(k: int, w: string, position: int)
    requires IsPermutation(w) && 0 <= k < ALPHABET_SIZE
    ensures EncodeThroughRotor(EncodeThroughRotor(k, w, position, Forward), w, position, Reverse) == k
  {
    var i := ModPositive(k + position);
    ForwardValue(k, w, position);
    var x := Ord(w[i]);
    var f := ModPositive(x - position);
    ModPositiveShift(f + position, x, -((x - position) / ALPHABET_SIZE));
    OrdChr(w[i]);
    ModPositiveOfIndex(x);
    var j := ReverseValue(f, w, position);
    assert w[j] == w[i];
    ModPositiveShift(i - position, k, -((k + position) / ALPHABET_SIZE));
    ModPositiveOfIndex(k);
    calc {
      EncodeThroughRotor(EncodeThroughRotor(k, w, position, Forward), w, position, Reverse);
      EncodeThroughRotor(f, w, position, Reverse);
      ModPositive(j - position);
      { assert j == i; }
      ModPositive(i - position);
      k;
    }
  }

  /** Entering a rotor forwards undoes entering it backwards at the same position. */
  lemma ForwardUndoesReverse(k: int, w: string, position: int)
    requires IsPermutation(w) && 0 <= k < ALPHABET_SIZE
    ensures EncodeThroughRotor(EncodeThroughRotor(k, w, position, Reverse), w, position, Forward) == k
  {
    var i := ModPositive(k + position);
    var j := ReverseValue(k, w, position);
    var r := ModPositive(j - position);
    ModPositiveShift(r + position, j, -((j - position) / ALPHABET_SIZE));
    ModPositiveOfIndex(j);
    ChrOrd(i);
    assert Ord(w[j]) == i;
    ForwardValue(r, w, position);
    ModPositiveShift(i - position, k, -((k + position) / ALPHABET_SIZE));
    ModPositiveOfIndex(k);
    calc {
      EncodeThroughRotor(EncodeThroughRotor(k, w, position, Reverse), w, position, Forward);
      EncodeThroughRotor(r, w, position, Forward);
      ModPositive(Ord(w[j]) - position);
      ModPositive(i - position);
      k;
    }
  }

  /** Only the position modulo 26 matters to a rotor: a stored offset of 32 acts as 6. */
  lemma EncodeDependsOnResidue(k: int, w: string, position: int, turns: int, direction: Direction)
    requires |w| == ALPHABET_SIZE
    ensures EncodeThroughRotor(k, w, position + ALPHABET_SIZE * turns, direction)
         == EncodeThroughRotor(k, w, position, direction)
  {
    var q := position + ALPHABET_SIZE * turns;
    ModPositiveShift(k + q, k + position, turns);
    var i := ModPositive(k + position);
    var x := match direction
      case Forward => Idx(Alphabet(), w[i])
      case Reverse => Idx(w, Alphabet()[i]);
    ModPositiveShift(x - q, x - position, -turns);
  }
}
