/**
 * The cipher engine as functions of the machine state: the stepping rule of
 * `step_rotors`, the signal path of one key press in `run_enigma`, and the
 * whole character stream. Rotor positions are a sequence indexed as the
 * `positions` array: 0 = right, 1 = middle, 2 = left. The rotor table is
 * indexed as `rotors`: 0 = I (left), 1 = II (middle), 2 = III (right),
 * 3 = reflector B.
 */
module Cipher {
  import opened Layout
  import opened Letters
  import opened Rotors
  import opened Plugboard

  /** The two letter cases the key loop accepts. */
  predicate IsLetter(c: char) { IsUpper(c) || IsLower(c) }

  /** Every rotor position is a letter index. */
  ghost predicate InRange(pos: seq<int>)
  {
    forall i | 0 <= i < |pos| :: 0 <= pos[i] < ALPHABET_SIZE
  }

  /** Every wiring has 26 entries, so every lookup of the signal path is defined. */
  predicate Shaped(rotors: seq<string>)
  {
    |rotors| == NUM_ROTOR_WIRINGS && forall k | 0 <= k < |rotors| :: |rotors[k]| == ALPHABET_SIZE
  }

  /** The wiring table of unigma.c has that shape and holds three rotors and a reflector. */
  lemma StandardWirings()
    ensures Shaped(ROTOR_WIRINGS) && ValidWirings(ROTOR_WIRINGS)
    ensures NUM_ROTOR_WIRINGS == NUM_ROTORS + 1 && REFLECTOR == NUM_ROTOR_WIRINGS - 1
  {
    StandardWiringsValid();
  }

  // ---------------------------------------------------------------- stepping

  /** `step_rotors`: the positions after one step, with the double-step of the middle rotor. */
  function Stepped(pos: seq<int>, notches: seq<int>): (next: seq<int>)
    requires |pos| == NUM_ROTORS && |notches| == NUM_ROTORS
    ensures |next| == NUM_ROTORS
  {
    if pos[1] == notches[1] then
      [ModPositive(pos[0] + 1), ModPositive(pos[1] + 1), ModPositive(pos[2] + 1)]
    else if pos[0] == notches[0] then
      [ModPositive(pos[0] + 1), ModPositive(pos[1] + 1), pos[2]]
    else
      [ModPositive(pos[0] + 1), pos[1], pos[2]]
  }

  /**
   * The right rotor always advances; the middle rotor advances exactly when it
   * or the right rotor is at its notch; the left rotor advances exactly when
   * the middle rotor is at its notch. Positions in 0..25 stay in 0..25.
   */
  lemma SteppingRules(pos: seq<int>, notches: seq<int>)
    requires |pos| == NUM_ROTORS && |notches| == NUM_ROTORS
    ensures Stepped(pos, notches)[0] == ModPositive(pos[0] + 1)
    ensures Stepped(pos, notches)[1]
         == if pos[1] == notches[1] || pos[0] == notches[0] then ModPositive(pos[1] + 1) else pos[1]
    ensures Stepped(pos, notches)[2]
         == if pos[1] == notches[1] then ModPositive(pos[2] + 1) else pos[2]
    ensures InRange(pos) ==> InRange(Stepped(pos, notches))
  {
  }

  /** The positions after n steps. */
  function StepN(pos: seq<int>, notches: seq<int>, n: nat): (r: seq<int>)
    requires |pos| == NUM_ROTORS && |notches| == NUM_ROTORS
    ensures |r| == NUM_ROTORS
    decreases n
  {
    if n == 0 then pos else StepN(Stepped(pos, notches), notches, n - 1)
  }

  /** n + 1 steps are one step and then n more. */
  lemma StepNFirst(pos: seq<int>, notches: seq<int>, n: nat)
    requires |pos| == NUM_ROTORS && |notches| == NUM_ROTORS
    ensures StepN(pos, notches, n + 1) == StepN(Stepped(pos, notches), notches, n)
  {
  }

  /** Stepping m times and then n times is stepping m + n times. */
  lemma {:induction false} StepNAdd(pos: seq<int>, notches: seq<int>, m: nat, n: nat)
    requires |pos| == NUM_ROTORS && |notches| == NUM_ROTORS
    ensures StepN(pos, notches, m + n) == StepN(StepN(pos, notches, m), notches, n)
    decreases m
  {
    if m > 0 {
      StepNAdd(Stepped(pos, notches), notches, m - 1, n);
    }
  }

  /** After n steps the right rotor has turned n places: after 26 it is back where it started. */
  lemma {:induction false} RightRotorAfterSteps(pos: seq<int>, notches: seq<int>, n: nat)
    requires |pos| == NUM_ROTORS && |notches| == NUM_ROTORS && 0 <= pos[0] < ALPHABET_SIZE
    ensures StepN(pos, notches, n)[0] == (pos[0] + n) % ALPHABET_SIZE
    decreases n
  {
    if n > 0 {
      var next := Stepped(pos, notches);
      RightRotorAfterSteps(next, notches, n - 1);
      ModPositiveShift(next[0] + (n - 1), pos[0] + n, -((pos[0] + 1) / ALPHABET_SIZE));
    }
  }

  /**
   * Right rotor P (15), middle D (3), left A (0): the right rotor reaches its
   * notch Q, the middle rotor then reaches E and on the next press steps
   * again together with the left rotor.
   */
  lemma DoubleStepScenario()
    ensures Stepped([15, 3, 0], NOTCH_POSITIONS_INIT) == [16, 3, 0]
    ensures Stepped([16, 3, 0], NOTCH_POSITIONS_INIT) == [17, 4, 0]
    ensures Stepped([17, 4, 0], NOTCH_POSITIONS_INIT) == [18, 5, 1]
  {
  }

  /**
   * The notch table holds one entry per rotor, Q E V, indexed like the
   * positions, and `step_rotors` compares entry 0 with the right rotor. The
   * right rotor carries wiring III, whose historical notch is V, yet it is
   * the setting Q that turns the middle rotor over; at V nothing else moves.
   */
  lemma RightRotorTurnsOverAtQ()
    ensures |NOTCH_POSITIONS_INIT| == NUM_ROTORS
    ensures NOTCH_POSITIONS_INIT == [Ord('Q'), Ord('E'), Ord('V')]
    ensures Stepped([Ord('Q'), 0, 0], NOTCH_POSITIONS_INIT) == [Ord('R'), 1, 0]
    ensures Stepped([Ord('V'), 0, 0], NOTCH_POSITIONS_INIT) == [Ord('W'), 0, 0]
  {
  }

  /**
   * A lowercase start setting is stored 32 above its letter index. Such a
   * middle position is never equal to a notch, so the left rotor does not
   * step where it would for the uppercase setting: from right A, middle 'e',
   * left A, only the right rotor moves, while from A E A the middle and left
   * rotors move too. The stored value is reduced modulo 26 only when the
   * middle rotor first moves: at the right rotor's turnover from Q it goes
   * from 'e' to L, the letter after K, and from then on it is an ordinary
   * letter index.
   */
  lemma LowercaseMiddleSettingMissesNotch()
    ensures Ord('e') == Ord('E') + 32
    ensures Stepped([0, Ord('e'), 0], NOTCH_POSITIONS_INIT) == [1, Ord('e'), 0]
    ensures Stepped([0, Ord('E'), 0], NOTCH_POSITIONS_INIT) == [1, 5, 1]
    ensures Stepped([Ord('Q'), Ord('e'), 0], NOTCH_POSITIONS_INIT) == [Ord('R'), Ord('L'), 0]
  {
  }

  /**
   * A rotor only sees its position modulo 26, so a lowercase setting acts as
   * the uppercase letter six places further on ('a' as G, 'e' as K).
   */
  lemma LowercaseSettingActsSixLater(c: char, k: int, w: string, direction: Direction)
    requires IsLower(c) && |w| == ALPHABET_SIZE
    ensures Ord(c) == Ord(ToUpper(c)) + 32
    ensures EncodeThroughRotor(k, w, Ord(c), direction)
         == EncodeThroughRotor(k, w, Ord(ToUpper(c)) + 6, direction)
  {
    EncodeDependsOnResidue(k, w, Ord(ToUpper(c)) + 6, 1, direction);
  }

  // ------------------------------------------------------------ signal path

  /** Lines right, middle, left of the forward pass: rotors III, II, I. */
  function Inward(x: int, pos: seq<int>, rotors: seq<string>): (y: int)
    requires |pos| == NUM_ROTORS && Shaped(rotors)
    ensures 0 <= y < ALPHABET_SIZE
  {
    var right := EncodeThroughRotor(x, rotors[2], pos[0], Forward);
    var middle := EncodeThroughRotor(right, rotors[1], pos[1], Forward);
    EncodeThroughRotor(middle, rotors[0], pos[2], Forward)
  }

  /** Lines left, middle, right of the return pass: rotors I, II, III in reverse. */
  function Outward(y: int, pos: seq<int>, rotors: seq<string>): (x: int)
    requires |pos| == NUM_ROTORS && Shaped(rotors)
    ensures 0 <= x < ALPHABET_SIZE
  {
    var left := EncodeThroughRotor(y, rotors[0], pos[2], Reverse);
    var middle := EncodeThroughRotor(left, rotors[1], pos[1], Reverse);
    EncodeThroughRotor(middle, rotors[2], pos[0], Reverse)
  }

  lemma OutwardUndoesInward(x: int, pos: seq<int>, rotors: seq<string>)
    requires |pos| == NUM_ROTORS && Shaped(rotors) && ValidWirings(rotors)
    requires 0 <= x < ALPHABET_SIZE
    ensures Outward(Inward(x, pos, rotors), pos, rotors) == x
  {
    var right := EncodeThroughRotor(x, rotors[2], pos[0], Forward);
    var middle := EncodeThroughRotor(right, rotors[1], pos[1], Forward);
    ReverseUndoesForward(middle, rotors[0], pos[2]);
    ReverseUndoesForward(right, rotors[1], pos[1]);
    ReverseUndoesForward(x, rotors[2], pos[0]);
  }

  lemma InwardUndoesOutward(y: int, pos: seq<int>, rotors: seq<string>)
    requires |pos| == NUM_ROTORS && Shaped(rotors) && ValidWirings(rotors)
    requires 0 <= y < ALPHABET_SIZE
    ensures Inward(Outward(y, pos, rotors), pos, rotors) == y
  {
    var left := EncodeThroughRotor(y, rotors[0], pos[2], Reverse);
    var middle := EncodeThroughRotor(left, rotors[1], pos[1], Reverse);
    ForwardUndoesReverse(middle, rotors[2], pos[0]);
    ForwardUndoesReverse(left, rotors[1], pos[1]);
    ForwardUndoesReverse(y, rotors[0], pos[2]);
  }

  /**
   * Rotors, reflector and rotors again, on letter indices. A reflector entry
   * that is not a capital letter yields -1, which the return pass takes as
   * it is, as the C code does.
   */
  function Scramble(x: int, pos: seq<int>, rotors: seq<string>): (r: int)
    requires |pos| == NUM_ROTORS && Shaped(rotors)
    ensures 0 <= r < ALPHABET_SIZE
  {
    Outward(Reflect(rotors[REFLECTOR], Inward(x, pos, rotors)), pos, rotors)
  }

  /** At fixed positions the rotor/reflector assembly is an involution without fixed point. */
  lemma ScrambleReciprocal(x: int, pos: seq<int>, rotors: seq<string>)
    requires |pos| == NUM_ROTORS && Shaped(rotors) && ValidWirings(rotors)
    requires 0 <= x < ALPHABET_SIZE
    ensures Scramble(Scramble(x, pos, rotors), pos, rotors) == x
    ensures Scramble(x, pos, rotors) != x
  {
    var w := rotors[REFLECTOR];
    var y := Inward(x, pos, rotors);
    var z := Reflect(w, y);
    assert 0 <= z < ALPHABET_SIZE && z != y && Reflect(w, z) == y;
    var s := Outward(z, pos, rotors);
    assert Scramble(x, pos, rotors) == s;
    InwardUndoesOutward(z, pos, rotors);
    OutwardUndoesInward(x, pos, rotors);
    assert Scramble(s, pos, rotors) == x;
  }

  /**
   * One letter through the machine at the given (already stepped) positions:
   * plugboard, rotors, reflector, rotors, plugboard.
   */
  function SignalPath(c: char, pos: seq<int>, rotors: seq<string>, pb: string): (r: char)
    requires IsUpper(c) && |pos| == NUM_ROTORS && Shaped(rotors) && WellFormed(pb)
    ensures IsUpper(r)
  {
    var x := Ord(ApplyPlugboard(c, pb));
    var s := Scramble(x, pos, rotors);
    ChrOrd(s);
    ApplyPlugboard(Chr(s), pb)
  }

  /** At the same positions and plugboard, enciphering the output gives back the input. */
  lemma SignalPathSelfReciprocal(c: char, pos: seq<int>, rotors: seq<string>, pb: string)
    requires IsUpper(c) && |pos| == NUM_ROTORS && Shaped(rotors) && WellFormed(pb)
    requires ValidWirings(rotors) && DisjointPairs(Pairs(pb))
    ensures SignalPath(SignalPath(c, pos, rotors, pb), pos, rotors, pb) == c
  {
    var p := ApplyPlugboard(c, pb);
    var s := Scramble(Ord(p), pos, rotors);
    ChrOrd(s);
    PlugboardInvolution(Chr(s), pb);
    ScrambleReciprocal(Ord(p), pos, rotors);
    OrdChr(p);
    PlugboardInvolution(c, pb);
  }

  /** No letter is ever enciphered to itself. */
  lemma SignalPathNoFixedPoint(c: char, pos: seq<int>, rotors: seq<string>, pb: string)
    requires IsUpper(c) && |pos| == NUM_ROTORS && Shaped(rotors) && WellFormed(pb)
    requires ValidWirings(rotors) && DisjointPairs(Pairs(pb))
    ensures SignalPath(c, pos, rotors, pb) != c
  {
    var p := ApplyPlugboard(c, pb);
    var s := Scramble(Ord(p), pos, rotors);
    ScrambleReciprocal(Ord(p), pos, rotors);
    ChrOrd(s);
    if ApplyPlugboard(Chr(s), pb) == c {
      PlugboardInvolution(Chr(s), pb);
    }
  }

  // --------------------------------------------------------- the key loop

  /**
   * One character of the `run_enigma` loop: lowercase is uppercased; a
   * non-letter is passed through without stepping; a letter steps the
   * rotors once and then crosses the signal path at the new positions.
   * The result is the output character and the new positions.
   */
  function Keystroke(c: char, pos: seq<int>, rotors: seq<string>, notches: seq<int>, pb: string)
    : (r: (char, seq<int>))
    requires |pos| == NUM_ROTORS && |notches| == NUM_ROTORS && Shaped(rotors) && WellFormed(pb)
    ensures |r.1| == NUM_ROTORS
  {
    var u := ToUpper(c);
    if !IsUpper(u) then (u, pos)
    else
      var next := Stepped(pos, notches);
      (SignalPath(u, next, rotors, pb), next)
  }

  /**
   * One key press, for any wiring and plugboard: a non-letter comes out
   * unchanged and leaves the rotors where they were; a letter steps the
   * rotors once and comes out as an uppercase letter.
   */
  lemma KeystrokeEffect(c: char, pos: seq<int>, rotors: seq<string>, notches: seq<int>, pb: string)
    requires |pos| == NUM_ROTORS && |notches| == NUM_ROTORS && Shaped(rotors) && WellFormed(pb)
    ensures !IsLetter(c) ==> Keystroke(c, pos, rotors, notches, pb) == (c, pos)
    ensures IsLetter(c) ==> Keystroke(c, pos, rotors, notches, pb).1 == Stepped(pos, notches)
    ensures IsLetter(c) ==> IsUpper(Keystroke(c, pos, rotors, notches, pb).0)
  {
  }

  /**
   * With valid wirings and no letter plugged twice, a letter never comes out
   * as its own uppercase form.
   */
  lemma KeystrokeNoFixedPoint(c: char, pos: seq<int>, rotors: seq<string>, notches: seq<int>, pb: string)
    requires |pos| == NUM_ROTORS && |notches| == NUM_ROTORS && Shaped(rotors) && WellFormed(pb)
    requires ValidWirings(rotors) && DisjointPairs(Pairs(pb))
    ensures IsLetter(c) ==> Keystroke(c, pos, rotors, notches, pb).0 != ToUpper(c)
  {
    if IsLetter(c) {
      SignalPathNoFixedPoint(ToUpper(c), Stepped(pos, notches), rotors, pb);
    }
  }

  /** The output stream and the final positions for a whole input stream. */
  function Transcribe(s: string, pos: seq<int>, rotors: seq<string>, notches: seq<int>, pb: string)
    : (r: (string, seq<int>))
    requires |pos| == NUM_ROTORS && |notches| == NUM_ROTORS && Shaped(rotors) && WellFormed(pb)
    ensures |r.0| == |s| && |r.1| == NUM_ROTORS
    decreases |s|
  {
    if s == [] then ([], pos)
    else
      var (o, next) := Keystroke(s[0], pos, rotors, notches, pb);
      var (rest, last) := Transcribe(s[1..], next, rotors, notches, pb);
      ([o] + rest, last)
  }

  /** Transcribing from character i on: that character's keystroke, then the rest. */
  lemma TranscribeFrom(s: string, i: int, pos: seq<int>, rotors: seq<string>, notches: seq<int>, pb: string)
    requires |pos| == NUM_ROTORS && |notches| == NUM_ROTORS && Shaped(rotors) && WellFormed(pb)
    requires 0 <= i < |s|
    ensures var (o, next) := Keystroke(s[i], pos, rotors, notches, pb);
      var rest := Transcribe(s[i + 1..], next, rotors, notches, pb);
      Transcribe(s[i..], pos, rotors, notches, pb) == ([o] + rest.0, rest.1)
  {
    assert s[i..][0] == s[i] && s[i..][1..] == s[i + 1..];
  }

  /**
   * Feeding s and then t is feeding s + t: the outputs are joined, and t is
   * read from the positions where s left the rotors.
   */
  lemma {:induction false} TranscribeConcat(s: string, t: string, pos: seq<int>, rotors: seq<string>,
                                            notches: seq<int>, pb: string)
    requires |pos| == NUM_ROTORS && |notches| == NUM_ROTORS && Shaped(rotors) && WellFormed(pb)
    ensures Transcribe(s + t, pos, rotors, notches, pb)
         == (Transcribe(s, pos, rotors, notches, pb).0
               + Transcribe(t, Transcribe(s, pos, rotors, notches, pb).1, rotors, notches, pb).0,
             Transcribe(t, Transcribe(s, pos, rotors, notches, pb).1, rotors, notches, pb).1)
    decreases |s|
  {
    if s == [] {
      var b := Transcribe(t, pos, rotors, notches, pb);
      assert s + t == t && Transcribe(s, pos, rotors, notches, pb) == ([], pos);
      assert [] + b.0 == b.0;
    } else {
      var k := Keystroke(s[0], pos, rotors, notches, pb);
      var a := Transcribe(s[1..], k.1, rotors, notches, pb);
      var b := Transcribe(t, a.1, rotors, notches, pb);
      var whole := Transcribe(s[1..] + t, k.1, rotors, notches, pb);
      assert Transcribe(s, pos, rotors, notches, pb) == ([k.0] + a.0, a.1) by {
        TranscribeFrom(s, 0, pos, rotors, notches, pb);
        assert s[0..] == s;
      }
      assert Transcribe(s + t, pos, rotors, notches, pb) == ([k.0] + whole.0, whole.1) by {
        var st := s + t;
        TranscribeFrom(st, 0, pos, rotors, notches, pb);
        assert st[0..] == st && st[0] == s[0] && st[1..] == s[1..] + t;
      }
      TranscribeConcat(s[1..], t, k.1, rotors, notches, pb);
      assert [k.0] + (a.0 + b.0) == ([k.0] + a.0) + b.0;
    }
  }

  /** Number of letters (either case) in s. */
  function LetterCount(s: string): nat
  {
    if s == [] then 0 else (if IsLetter(s[0]) then 1 else 0) + LetterCount(s[1..])
  }

  /**
   * Character by character, for any wiring and plugboard: a non-letter comes
   * out unchanged; a letter comes out as an uppercase letter.
   */
  lemma {:induction false} TranscribeByCharacter(s: string, pos: seq<int>, rotors: seq<string>,
                                                 notches: seq<int>, pb: string, i: int)
    requires |pos| == NUM_ROTORS && |notches| == NUM_ROTORS && Shaped(rotors) && WellFormed(pb)
    requires 0 <= i < |s|
    ensures !IsLetter(s[i]) ==> Transcribe(s, pos, rotors, notches, pb).0[i] == s[i]
    ensures IsLetter(s[i]) ==> IsUpper(Transcribe(s, pos, rotors, notches, pb).0[i])
    decreases |s|
  {
    var (o, next) := Keystroke(s[0], pos, rotors, notches, pb);
    var out := Transcribe(s, pos, rotors, notches, pb).0;
    var rest := Transcribe(s[1..], next, rotors, notches, pb).0;
    assert out == [o] + rest;
    if i == 0 {
      KeystrokeEffect(s[0], pos, rotors, notches, pb);
    } else {
      TranscribeByCharacter(s[1..], next, rotors, notches, pb, i - 1);
      assert s[1..][i - 1] == s[i] && out[i] == rest[i - 1];
    }
  }

  /**
   * With valid wirings and no letter plugged twice, no letter of the input
   * comes out as its own uppercase form.
   */
  lemma {:induction false} TranscribeNoFixedPoint(s: string, pos: seq<int>, rotors: seq<string>,
                                                  notches: seq<int>, pb: string, i: int)
    requires |pos| == NUM_ROTORS && |notches| == NUM_ROTORS && Shaped(rotors) && WellFormed(pb)
    requires ValidWirings(rotors) && DisjointPairs(Pairs(pb))
    requires 0 <= i < |s|
    ensures IsLetter(s[i]) ==> Transcribe(s, pos, rotors, notches, pb).0[i] != ToUpper(s[i])
    decreases |s|
  {
    var (o, next) := Keystroke(s[0], pos, rotors, notches, pb);
    var out := Transcribe(s, pos, rotors, notches, pb).0;
    var rest := Transcribe(s[1..], next, rotors, notches, pb).0;
    assert out == [o] + rest;
    if i == 0 {
      KeystrokeNoFixedPoint(s[0], pos, rotors, notches, pb);
    } else {
      TranscribeNoFixedPoint(s[1..], next, rotors, notches, pb, i - 1);
      assert s[1..][i - 1] == s[i] && out[i] == rest[i - 1];
    }
  }

  /** The rotors step once per letter and never for any other character. */
  lemma {:induction false} TranscribeStepsOncePerLetter(s: string, pos: seq<int>, rotors: seq<string>,
                                                        notches: seq<int>, pb: string)
    requires |pos| == NUM_ROTORS && |notches| == NUM_ROTORS && Shaped(rotors) && WellFormed(pb)
    ensures Transcribe(s, pos, rotors, notches, pb).1 == StepN(pos, notches, LetterCount(s))
    decreases |s|
  {
    if s != [] {
      var next := Keystroke(s[0], pos, rotors, notches, pb).1;
      TranscribeFrom(s, 0, pos, rotors, notches, pb);
      assert s[0..] == s;
      TranscribeStepsOncePerLetter(s[1..], next, rotors, notches, pb);
      KeystrokeThenSteps(s[0], pos, rotors, notches, pb, LetterCount(s[1..]));
      assert LetterCount(s) == (if IsLetter(s[0]) then 1 else 0) + LetterCount(s[1..]);
    }
  }

  /** A key press followed by n steps is as many steps as the letters among them. */
  lemma KeystrokeThenSteps(c: char, pos: seq<int>, rotors: seq<string>, notches: seq<int>, pb: string, n: nat)
    requires |pos| == NUM_ROTORS && |notches| == NUM_ROTORS && Shaped(rotors) && WellFormed(pb)
    ensures StepN(Keystroke(c, pos, rotors, notches, pb).1, notches, n)
         == StepN(pos, notches, (if IsLetter(c) then 1 else 0) + n)
  {
    if IsLetter(c) {
      StepNFirst(pos, notches, n);
    }
  }

  /**
   * Self-reciprocity of the whole stream: from the same starting positions and
   * plugboard, enciphering the ciphertext gives back the plaintext (with its
   * lowercase letters uppercased), and both runs end at the same positions.
   */
  lemma {:induction false} TranscribeSelfReciprocal(s: string, pos: seq<int>, rotors: seq<string>,
                                                    notches: seq<int>, pb: string)
    requires |pos| == NUM_ROTORS && |notches| == NUM_ROTORS && Shaped(rotors) && WellFormed(pb)
    requires ValidWirings(rotors) && DisjointPairs(Pairs(pb))
    ensures var (cipher, last) := Transcribe(s, pos, rotors, notches, pb);
      Transcribe(cipher, pos, rotors, notches, pb) == (UpperString(s), last)
    decreases |s|
  {
    if s != [] {
      var (cipher, last) := Transcribe(s, pos, rotors, notches, pb);
      var (o, next) := Keystroke(s[0], pos, rotors, notches, pb);
      var u := ToUpper(s[0]);
      if IsUpper(u) {
        SignalPathSelfReciprocal(u, next, rotors, pb);
      }
      assert Keystroke(o, pos, rotors, notches, pb) == (u, next);
      TranscribeSelfReciprocal(s[1..], next, rotors, notches, pb);
      assert cipher[0] == o && cipher[1..] == Transcribe(s[1..], next, rotors, notches, pb).0;
      assert UpperString(s) == [u] + UpperString(s[1..]);
    }
  }
}
