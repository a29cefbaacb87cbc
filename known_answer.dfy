/**
 * Two worked key presses of the Enigma I with rotors I-II-III and reflector
 * B, each followed through the seven wiring entries it touches:
 *  - start setting A A A, no plugboard pairs: the first A typed comes out as
 *    B (the classic AAAAA -> BDZGO begins so);
 *  - start setting J A Z, plugboard "AB AC", which plugs A twice: the A
 *    typed comes out as A, so without disjoint pairs a letter can be
 *    enciphered as itself.
 */
module KnownAnswer {
  import opened Layout
  import opened Letters
  import opened Rotors
  import opened Plugboard
  import opened Cipher

  /** The wiring entries met by the first A from A A A. */
  predicate FirstKeyEntries(rotors: seq<string>)
    requires Shaped(rotors)
  {
    && rotors[2][1] == 'D' && rotors[1][2] == 'D' && rotors[0][3] == 'F'
    && rotors[REFLECTOR][5] == 'S'
    && rotors[0][18] == 'S' && rotors[1][4] == 'S' && rotors[2][2] == 'F'
  }

  lemma StandardFirstKeyEntries()
    ensures Shaped(ROTOR_WIRINGS) && FirstKeyEntries(ROTOR_WIRINGS)
  {
    var w := ROTOR_WIRINGS;
    assert w[2][1] == 'D' && w[2][2] == 'F';
    assert w[1][2] == 'D' && w[1][4] == 'S';
    assert w[0][3] == 'F' && w[0][18] == 'S';
    assert w[3][5] == 'S';
  }

  /** Right III at B, middle II and left I at A: A (0) enters and F (5) reaches the reflector. */
  lemma {:induction false} FirstKeyInward(rotors: seq<string>)
    requires Shaped(rotors) && FirstKeyEntries(rotors)
    ensures Inward(0, [1, 0, 0], rotors) == 5
  {
    ForwardValue(0, rotors[2], 1);
    ForwardValue(2, rotors[1], 0);
    ForwardValue(3, rotors[0], 0);
  }

  /** Reflector B sends F (5) to S (18), and the return pass takes S (18) to B (1). */
  lemma {:induction false} FirstKeyOutward(rotors: seq<string>)
    requires Shaped(rotors) && ValidWirings(rotors) && FirstKeyEntries(rotors)
    ensures Reflect(rotors[REFLECTOR], 5) == 18
    ensures Outward(18, [1, 0, 0], rotors) == 1
  {
    var j := ReverseValue(18, rotors[0], 0);
    assert rotors[0][j] == rotors[0][18];
    assert EncodeThroughRotor(18, rotors[0], 0, Reverse) == 18;
    j := ReverseValue(18, rotors[1], 0);
    assert rotors[1][j] == rotors[1][4];
    assert EncodeThroughRotor(18, rotors[1], 0, Reverse) == 4;
    j := ReverseValue(4, rotors[2], 1);
    assert rotors[2][j] == rotors[2][2];
    assert EncodeThroughRotor(4, rotors[2], 1, Reverse) == 1;
  }

  /** From A A A no rotor is at its notch, so only the right rotor moves. */
  lemma FirstStep()
    ensures Stepped([0, 0, 0], NOTCH_POSITIONS_INIT) == [1, 0, 0]
  {
  }

  /** With that path, A pressed at A A A with an empty plugboard moves the rotors to A A B and comes out as B. */
  lemma {:induction false} FirstKey(rotors: seq<string>)
    requires Shaped(rotors)
    requires Inward(0, [1, 0, 0], rotors) == 5
    requires Reflect(rotors[REFLECTOR], 5) == 18
    requires Outward(18, [1, 0, 0], rotors) == 1
    ensures Keystroke('A', [0, 0, 0], rotors, NOTCH_POSITIONS_INIT, "") == ('B', [1, 0, 0])
  {
    EmptyPlugboardIsIdentity('A');
    EmptyPlugboardIsIdentity('B');
    FirstStep();
    assert Scramble(0, [1, 0, 0], rotors) == 1;
  }

  /** The first key press of A at A A A with the standard rotors I-II-III and reflector B gives B. */
  lemma FirstKeyAtAAA()
    ensures Keystroke('A', [0, 0, 0], ROTOR_WIRINGS, NOTCH_POSITIONS_INIT, "") == ('B', [1, 0, 0])
  {
    StandardFirstKeyEntries();
    StandardWirings();
    FirstKeyInward(ROTOR_WIRINGS);
    FirstKeyOutward(ROTOR_WIRINGS);
    FirstKey(ROTOR_WIRINGS);
  }

  /** The wiring entries met by B at right A, middle A, left J. */
  predicate OverlapKeyEntries(rotors: seq<string>)
    requires Shaped(rotors)
  {
    && rotors[2][1] == 'D' && rotors[1][3] == 'K' && rotors[0][19] == 'P'
    && rotors[REFLECTOR][6] == 'L'
    && rotors[0][17] == 'U' && rotors[1][5] == 'I' && rotors[2][2] == 'F'
  }

  lemma StandardOverlapKeyEntries()
    ensures Shaped(ROTOR_WIRINGS) && OverlapKeyEntries(ROTOR_WIRINGS)
  {
    var w := ROTOR_WIRINGS;
    assert w[2][1] == 'D' && w[2][2] == 'F';
    assert w[1][3] == 'K' && w[1][5] == 'I';
    assert w[0][19] == 'P' && w[0][17] == 'U';
    assert w[3][6] == 'L';
  }

  /** Right III and middle II at A, left I at J: B (1) enters and G (6) reaches the reflector. */
  lemma {:induction false} OverlapKeyInward(rotors: seq<string>)
    requires Shaped(rotors) && OverlapKeyEntries(rotors)
    ensures Inward(1, [0, 0, 9], rotors) == 6
  {
    ModPositiveOfIndex(1);
    ForwardValue(1, rotors[2], 0);
    assert EncodeThroughRotor(1, rotors[2], 0, Forward) == 3;
    ModPositiveOfIndex(3);
    ForwardValue(3, rotors[1], 0);
    assert EncodeThroughRotor(3, rotors[1], 0, Forward) == 10;
    ModPositiveOfIndex(19);
    ModPositiveOfIndex(6);
    assert Ord(rotors[0][19]) - 9 == 6;
    ForwardValue(10, rotors[0], 9);
    assert EncodeThroughRotor(10, rotors[0], 9, Forward) == 6;
  }

  /** Reflector B sends G (6) to L (11), and the return pass takes L (11) to C (2). */
  lemma {:induction false} OverlapKeyOutward(rotors: seq<string>)
    requires Shaped(rotors) && ValidWirings(rotors) && OverlapKeyEntries(rotors)
    ensures Reflect(rotors[REFLECTOR], 6) == 11
    ensures Outward(11, [0, 0, 9], rotors) == 2
  {
    var j := ReverseValue(11, rotors[0], 9);
    assert rotors[0][j] == rotors[0][17];
    assert EncodeThroughRotor(11, rotors[0], 9, Reverse) == 8;
    j := ReverseValue(8, rotors[1], 0);
    assert rotors[1][j] == rotors[1][5];
    assert EncodeThroughRotor(8, rotors[1], 0, Reverse) == 5;
    j := ReverseValue(5, rotors[2], 0);
    assert rotors[2][j] == rotors[2][2];
    assert EncodeThroughRotor(5, rotors[2], 0, Reverse) == 2;
  }

  /**
   * With that path and the plugboard "AB AC", A typed at right Z, middle A,
   * left J moves the rotors to right A and comes out as A: the plugboard
   * sends A to B, the rotors send B to C, and the second pair sends C back
   * to A.
   */
  lemma {:induction false} OverlapKey(rotors: seq<string>)
    requires Shaped(rotors)
    requires Inward(1, [0, 0, 9], rotors) == 6
    requires Reflect(rotors[REFLECTOR], 6) == 11
    requires Outward(11, [0, 0, 9], rotors) == 2
    ensures WellFormed("AB AC")
    ensures Keystroke('A', [25, 0, 9], rotors, NOTCH_POSITIONS_INIT, "AB AC") == ('A', [0, 0, 9])
  {
    OverlappingPairsBreakInvolution();
    var pb := "AB AC";
    assert ApplyPlugboard('A', pb) == 'B' && ApplyPlugboard('C', pb) == 'A';
    var next := Stepped([25, 0, 9], NOTCH_POSITIONS_INIT);
    assert next == [0, 0, 9];
    assert Scramble(Ord('B'), next, rotors) == Ord('C');
    ChrOrd(2);
    assert SignalPath('A', next, rotors, pb) == 'A';
  }

  /**
   * The source accepts a plugboard that plugs a letter twice, and then a
   * letter can be enciphered as itself: at setting J A Z with "AB AC", A
   * comes out as A.
   */
  lemma OverlappingPairsAllowFixedPoint()
    ensures Shaped(ROTOR_WIRINGS) && WellFormed("AB AC")
    ensures Keystroke('A', [25, 0, 9], ROTOR_WIRINGS, NOTCH_POSITIONS_INIT, "AB AC") == ('A', [0, 0, 9])
  {
    StandardOverlapKeyEntries();
    StandardWirings();
    OverlapKeyInward(ROTOR_WIRINGS);
    OverlapKeyOutward(ROTOR_WIRINGS);
    OverlapKey(ROTOR_WIRINGS);
  }
}
